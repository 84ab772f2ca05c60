/**
 The LSM tree as the imperative object it is (metastore/lsm.go): a memtable, an immutable
 memtable while flushing, levels of opened tables, a log, a block cache and a directory.
 Every method is shown to take only steps of the LSM machine, so what is proved there about
 all runs holds of this object.
 */
module LsmTree {
  import opened BigEndian
  import opened VectorClock
  import opened StatKey
  import opened KeyOrder
  import opened LsmMachine
  import LsmSafety
  import LsmScan
  import SsTable
  import Bloom
  import Wal
  import LruCache
  import MemTable

  const DEFAULT_MEM_BYTES := 64 * 1024 * 1024
  const LEVEL0_COMPACT: nat := 4
  const CACHE_ENTRIES: nat := 4096

  datatype Sst = Sst(id: nat, table: SsTable.Table)
  datatype DirFile = DirFile(level: nat, id: nat, bytes: Bytes)

  // ----- abstraction to the machine's state ------------------------------------------

  ghost function AbsTables(c: Codec, ts: seq<Sst>): seq<Loaded> {
    seq(|ts|, i requires 0 <= i < |ts| => Loaded(ts[i].id, SsTable.TableMap(c, ts[i].table)))
  }

  ghost function AbsLevels(c: Codec, ls: seq<seq<Sst>>): seq<seq<Loaded>> {
    seq(|ls|, l requires 0 <= l < |ls| => AbsTables(c, ls[l]))
  }

  ghost function AbsFile(c: Codec, f: DirFile): File {
    var t := SsTable.Opened(f.bytes);
    File(f.level, f.id, if t.Some? then Some(SsTable.TableMap(c, t.value)) else None)
  }

  ghost function AbsFiles(c: Codec, fs: seq<DirFile>): seq<File> {
    seq(|fs|, i requires 0 <= i < |fs| => AbsFile(c, fs[i]))
  }

  ghost predicate Formed(c: Codec, h: Bloom.Hashes, ts: seq<Sst>) {
    forall i :: 0 <= i < |ts| ==> SsTable.WellFormed(c, h, ts[i].table)
  }

  ghost predicate LevelsFormed(c: Codec, h: Bloom.Hashes, ls: seq<seq<Sst>>) {
    forall l :: 0 <= l < |ls| ==> Formed(c, h, ls[l])
  }

  ghost predicate FilesFormed(c: Codec, h: Bloom.Hashes, fs: seq<DirFile>) {
    forall i :: 0 <= i < |fs| ==> SsTable.Opened(fs[i].bytes).Some? ==> SsTable.WellFormed(c, h, SsTable.Opened(fs[i].bytes).value)
  }

  /** The cache holds encodings of the machine's cached entries. */
  ghost predicate CacheAgrees(c: Codec, items: map<Key, Bytes>, cache: map<Key, StatEntry>) {
    items.Keys == cache.Keys && forall k <- items.Keys :: c.dec(items[k]) == Some(cache[k])
  }

  function RemoveDir(fs: seq<DirFile>, id: nat): seq<DirFile> {
    if fs == [] then []
    else
      var rest := RemoveDir(fs[..|fs| - 1], id);
      if fs[|fs| - 1].id == id then rest else rest + [fs[|fs| - 1]]
  }

  lemma {:induction false} AbsRemove(c: Codec, h: Bloom.Hashes, fs: seq<DirFile>, id: nat)
    ensures AbsFiles(c, RemoveDir(fs, id)) == RemoveFile(AbsFiles(c, fs), id)
    ensures FilesFormed(c, h, fs) ==> FilesFormed(c, h, RemoveDir(fs, id))
  {
    hide SsTable.Opened, SsTable.TableMap, SsTable.WellFormed;
    if fs != [] {
      var n := |fs| - 1;
      AbsRemove(c, h, fs[..n], id);
      assert AbsFiles(c, fs)[..n] == AbsFiles(c, fs[..n]);
      AbsSnoc(c, h, RemoveDir(fs[..n], id), fs[n]);
    }
  }

  lemma {:induction false} AbsSnoc(c: Codec, h: Bloom.Hashes, fs: seq<DirFile>, f: DirFile)
    ensures AbsFiles(c, fs + [f]) == AbsFiles(c, fs) + [AbsFile(c, f)]
    ensures FilesFormed(c, h, fs) && (SsTable.Opened(f.bytes).Some? ==> SsTable.WellFormed(c, h, SsTable.Opened(f.bytes).value))
      ==> FilesFormed(c, h, fs + [f])
  {
    hide SsTable.Opened, SsTable.TableMap, SsTable.WellFormed;
  }

  lemma {:induction false} AbsTablesConcat(c: Codec, xs: seq<Sst>, ys: seq<Sst>)
    ensures AbsTables(c, xs + ys) == AbsTables(c, xs) + AbsTables(c, ys)
  {
    hide SsTable.TableMap;
  }

  /** A store of logged entries holds at most as many keys as entries were logged. */
  lemma {:induction false} KeyedSize(m: TableMap, live: set<StatEntry>)
    requires Keyed(m, live)
    ensures |m| <= |live|
    decreases |m|
  {
    hide EntryKey;
    if m != map[] {
      var k :| k in m;
      var rest := m - {k};
      forall x | x in rest ensures EntryKey(rest[x]) == x && rest[x] in live - {m[k]} {}
      KeyedSize(rest, live - {m[k]});
      assert m.Keys == rest.Keys + {k};
    }
  }

  lemma {:induction false} EntriesFit(c: Codec, written: set<StatEntry>, live: set<StatEntry>, m: TableMap, es: seq<StatEntry>)
    requires EntriesOk(c, written, live) && Keyed(m, live) && |live| < U32_LIMIT
    requires |es| == |m| && forall e <- es :: EntryKey(e) in m && m[EntryKey(e)] == e
    ensures SsTable.Fits(c, es)
  {
    hide EntryKey, Admissible;
    KeyedSize(m, live);
    forall e | e in es ensures Admissible(c, e) { assert e in live; }
  }

  // ----- merging and reading loops ------------------------------------------------------

  /** merged[k] = pickNewer(merged[k], e) for every entry of one source. */
  method MergeInto(acc: TableMap, es: seq<StatEntry>) returns (merged: TableMap)
    requires DistinctKeys(es)
    ensures merged == MergeTable(acc, ToMap(es))
  {
    hide EntryKey, Newer, ToMap, MergeTable;
    merged := acc;
    var i := 0;
    assert es[..0] == [];
    MergeNothing(acc);
    while i < |es|
      invariant 0 <= i <= |es|
      invariant merged == MergeTable(acc, ToMap(es[..i]))
    {
      MergeStep(acc, es, i);
      var k := EntryKey(es[i]);
      var w := ComputeNewer(if k in merged then Some(merged[k]) else None, Some(es[i]));
      merged := merged[k := w.value];
      i := i + 1;
    }
    assert es[..|es|] == es;
  }

  lemma {:induction false} MergeNothing(acc: TableMap)
    ensures MergeTable(acc, ToMap([])) == acc
  {}

  lemma {:induction false} MergeOne(acc: TableMap, t: TableMap, k: Key, e: StatEntry)
    requires k !in t
    ensures var m := MergeTable(acc, t);
      MergeTable(acc, t[k := e]) == m[k := if k in m then Newer(m[k], e) else e]
  {
    hide Newer;
  }

  lemma {:induction false} LaterKeyAbsent(es: seq<StatEntry>, i: nat)
    requires i < |es| && DistinctKeys(es)
    ensures EntryKey(es[i]) !in ToMap(es[..i])
    ensures ToMap(es[..i + 1]) == ToMap(es[..i])[EntryKey(es[i]) := es[i]]
  {
    hide EntryKey;
    ToMapMembers(es[..i]);
    assert es[..i + 1][..i] == es[..i];
  }

  lemma {:induction false} MergeStep(acc: TableMap, es: seq<StatEntry>, i: nat)
    requires i < |es| && DistinctKeys(es)
    ensures var m, k := MergeTable(acc, ToMap(es[..i])), EntryKey(es[i]);
      MergeTable(acc, ToMap(es[..i + 1])) == m[k := if k in m then Newer(m[k], es[i]) else es[i]]
  {
    hide EntryKey, Newer, ToMap, MergeTable;
    LaterKeyAbsent(es, i);
    MergeOne(acc, ToMap(es[..i]), EntryKey(es[i]), es[i]);
  }

  /** The read loop over one level, newest table first. */
  method ReadLevel(c: Codec, h: Bloom.Hashes, ts: seq<Sst>, k: Key, firstHit: bool, best0: Option<StatEntry>)
    returns (best: Option<StatEntry>)
    requires Formed(c, h, ts)
    ensures best == ReadTables(AbsTables(c, ts), |ts|, k, firstHit, best0)
  {
    hide SsTable.WellFormed, SsTable.TableMap, PickNewer;
    best := best0;
    var i := |ts|;
    while i > 0
      invariant 0 <= i <= |ts|
      invariant ReadTables(AbsTables(c, ts), i, k, firstHit, best) == ReadTables(AbsTables(c, ts), |ts|, k, firstHit, best0)
    {
      var e := SsTable.GetEntry(c, h, ts[i - 1].table, k);
      if e.Some? {
        best := ComputeNewer(best, e);
        if firstHit { return; }
      }
      i := i - 1;
    }
  }

  // ----- opening ---------------------------------------------------------------------

  lemma {:induction false} LoadStep(files: seq<File>, f: File)
    ensures f.content.None? ==> LoadLevels(files + [f]) == LoadLevels(files)
    ensures f.content.Some? ==>
      var wide := Widen(LoadLevels(files), f.level + 1);
      LoadLevels(files + [f]) == wide[f.level := wide[f.level] + [Loaded(f.id, f.content.value)]]
  {
    hide OnDisk;
    assert (files + [f])[..|files|] == files;
    forall l: nat ensures OnDisk(files + [f], l) == OnDisk(files, l) + (if f.level == l && f.content.Some? then [Loaded(f.id, f.content.value)] else []) {
      OnDiskSnoc(files, f, l);
    }
    var after := LoadLevels(files + [f]);
    if f.content.None? {
      assert forall l: nat :: l < |after| ==> after[l] == LoadLevels(files)[l];
    } else {
      var t := Loaded(f.id, f.content.value);
      var wide := Widen(LoadLevels(files), f.level + 1);
      forall l: nat | l > TopLevel(files) ensures OnDisk(files, l) == [] { AboveTopEmpty(files, l); }
      assert |after| == |wide|;
      forall l: nat | l < |after| ensures after[l] == if l == f.level then wide[l] + [t] else wide[l] {}
    }
  }

  /** loadLevels: open every table file, skip the bad ones, group by level in name order. */
  method OpenLevels(c: Codec, h: Bloom.Hashes, dir: seq<DirFile>) returns (levels: seq<seq<Sst>>)
    requires FilesFormed(c, h, dir)
    ensures AbsLevels(c, levels) == LoadLevels(AbsFiles(c, dir)) && LevelsFormed(c, h, levels)
  {
    hide SsTable.Opened, SsTable.TableMap, SsTable.WellFormed, LoadLevels, AbsTables;
    levels := [[]];
    assert AbsLevels(c, levels) == LoadLevels([]) by { LoadNothing(c); }
    assert AbsFiles(c, dir[..0]) == [];
    var i := 0;
    while i < |dir|
      invariant 0 <= i <= |dir|
      invariant AbsLevels(c, levels) == LoadLevels(AbsFiles(c, dir[..i])) && LevelsFormed(c, h, levels)
    {
      var f := dir[i];
      assert dir[..i + 1] == dir[..i] + [f];
      AbsSnoc(c, h, dir[..i], f);
      LoadStep(AbsFiles(c, dir[..i]), AbsFile(c, f));
      var t := SsTable.OpenTable(f.bytes);
      if t.Some? {
        levels := AddTable(c, h, levels, f.level, Sst(f.id, t.value));
      }
      i := i + 1;
    }
    assert dir[..|dir|] == dir;
  }

  lemma {:induction false} LoadNothing(c: Codec)
    ensures AbsLevels(c, [[]]) == LoadLevels([])
  {
    assert AbsTables(c, []) == [];
  }

  method AddTable(c: Codec, h: Bloom.Hashes, ls: seq<seq<Sst>>, level: nat, t: Sst) returns (levels: seq<seq<Sst>>)
    requires LevelsFormed(c, h, ls) && SsTable.WellFormed(c, h, t.table)
    ensures LevelsFormed(c, h, levels)
    ensures var wide := Widen(AbsLevels(c, ls), level + 1);
      AbsLevels(c, levels) == wide[level := wide[level] + [Loaded(t.id, SsTable.TableMap(c, t.table))]]
  {
    hide SsTable.TableMap, SsTable.WellFormed;
    levels := WidenLevels(c, h, ls, level + 1);
    ghost var wide := AbsLevels(c, levels);
    levels := levels[level := levels[level] + [t]];
    assert AbsTables(c, levels[level]) == wide[level] + [Loaded(t.id, SsTable.TableMap(c, t.table))];
  }

  /** Append empty levels until there are at least `n`. */
  method WidenLevels(c: Codec, h: Bloom.Hashes, ls: seq<seq<Sst>>, n: nat) returns (levels: seq<seq<Sst>>)
    requires LevelsFormed(c, h, ls)
    ensures LevelsFormed(c, h, levels) && AbsLevels(c, levels) == Widen(AbsLevels(c, ls), n) && |levels| >= n
    ensures forall l :: 0 <= l < |levels| ==> levels[l] == if l < |ls| then ls[l] else []
  {
    hide SsTable.TableMap, SsTable.WellFormed;
    levels := ls;
    while |levels| < n
      invariant |levels| >= |ls| && (|levels| <= n || levels == ls)
      invariant forall l :: 0 <= l < |levels| ==> levels[l] == if l < |ls| then ls[l] else []
      decreases n - |levels|
    {
      levels := levels + [[]];
    }
    assert AbsTables(c, []) == [];
  }

  /** replayWAL: put every decodable record into a fresh memtable. */
  method ReplayInto(c: Codec, mem: MemTable.Table, es: seq<Wal.WalEntry>)
    requires mem.Valid() && mem.data == map[] && mem.c == c
    modifies mem
    ensures mem.Valid() && mem.data == ReplayMem(c, es)
  {
    hide PutMem;
    var i := 0;
    assert es[..0] == [];
    while i < |es|
      invariant 0 <= i <= |es| && mem.Valid() && mem.data == ReplayMem(c, es[..i])
    {
      assert es[..i + 1][..i] == es[..i];
      var e := c.dec(es[i].val);
      if e.Some? { mem.Put(es[i].key, e.value); }
      i := i + 1;
    }
    assert es[..|es|] == es;
  }

  lemma {:induction false} CrashEffect(c: Codec, s: State, cut: nat)
    requires Enabled(c, s, Crash(cut))
    ensures cut <= |s.log|
    ensures var s' := Apply(c, s, Crash(cut));
      && s'.mem == ReplayMem(c, Wal.Replayed(s.log[..cut])) && s'.imm.None? && s'.levels == LoadLevels(s.files)
      && s'.cache == map[] && s'.files == s.files && s'.log == s.log[..cut] && s'.synced == cut
      && s'.nextId == s.nextId && s'.phase.Idle?
  {}

  lemma {:induction false} BeginFlushEffect(c: Codec, s: State)
    requires s.phase.Idle? && s.mem != map[]
    ensures Enabled(c, s, BeginFlush)
    ensures Apply(c, s, BeginFlush) == s.(imm := Some(s.mem), mem := map[], files := s.files + [File(0, s.nextId, None)],
                                          nextId := s.nextId + 1, phase := Flushing(s.nextId))
  {}

  lemma {:induction false} BeginCompactEffect(c: Codec, s: State, l: nat)
    requires s.phase.Idle? && l < |s.levels|
    ensures Enabled(c, s, BeginCompact(l))
    ensures Apply(c, s, BeginCompact(l)) == s.(levels := Widen(s.levels, l + 2), files := s.files + [File(l + 1, s.nextId, None)],
                                               nextId := s.nextId + 1, phase := Compacting(l, s.nextId))
  {}

  /** What the machine invariant says about an idle state, in the form the methods use. */
  lemma {:induction false} StateFacts(c: Codec, run: seq<Step>, s: State)
    requires Exec(c, run) == Some(s) && s.phase.Idle?
    ensures Inv(c, s) && s.imm.None? && s.levels != [] && EntriesOk(c, s.written, s.live) && Keyed(s.mem, s.live)
    ensures forall l: nat :: l < |s.levels| ==> AllKeyed(s.levels[l], s.live)
  {
    hide Exec, OnDisk, Durable, CacheFresh, Reflected, Keyed, Names, EntriesOk;
    LsmSafety.RunKeeps(c, run);
    assert forall l: nat :: l < |s.levels| ==> LevelOk(s.levels[l], l, s.live);
  }

  lemma {:induction false} AppendLevel0(c: Codec, h: Bloom.Hashes, ls: seq<seq<Sst>>, t: Sst)
    requires ls != [] && LevelsFormed(c, h, ls) && SsTable.WellFormed(c, h, t.table)
    ensures var ls' := ls[0 := ls[0] + [t]];
      && LevelsFormed(c, h, ls')
      && AbsLevels(c, ls') == AbsLevels(c, ls)[0 := AbsLevels(c, ls)[0] + [Loaded(t.id, SsTable.TableMap(c, t.table))]]
  {
    hide SsTable.TableMap, SsTable.WellFormed;
    var ls' := ls[0 := ls[0] + [t]];
    AbsTablesConcat(c, ls[0], [t]);
    assert forall l :: 0 <= l < |ls| ==> AbsLevels(c, ls')[l] == if l == 0 then AbsLevels(c, ls)[0] + [Loaded(t.id, SsTable.TableMap(c, t.table))] else AbsLevels(c, ls)[l];
  }

  /** The five steps of a write and the state they lead to. */
  lemma {:induction false} WriteEffect(c: Codec, s: State, e: StatEntry, n: nat)
    returns (s1: State, s2: State, s3: State, s4: State, s5: State)
    requires s.phase.Idle? && Admissible(c, e) && n < U64_LIMIT
    ensures Enabled(c, s, BeginAppend(e, n)) && s1 == Apply(c, s, BeginAppend(e, n))
    ensures Enabled(c, s1, SyncLog) && s2 == Apply(c, s1, SyncLog)
    ensures Enabled(c, s2, ApplyMem) && s3 == Apply(c, s2, ApplyMem)
    ensures Enabled(c, s3, WriteMarker(n)) && s4 == Apply(c, s3, WriteMarker(n))
    ensures Enabled(c, s4, Invalidate) && s5 == Apply(c, s4, Invalidate)
    ensures s2.phase == Logged(e) && s3.phase == Applied(e) && s4.phase == Marked(e)
    ensures var log1 := s.log + Wal.Encode(DataRecord(c, e, n));
      s5 == s.(log := log1 + Wal.Encode(Marker(n)), synced := |log1|, mem := PutMem(s.mem, EntryKey(e), e),
               cache := s.cache - {EntryKey(e)}, intact := s.intact && Wal.Whole(s.log),
               written := s.written + {e}, live := s.live + {e})
  {
    hide Wal.Encode, Wal.Whole, PutMem, ReadStores, Admissible;
    s1 := Apply(c, s, BeginAppend(e, n));
    s2 := Apply(c, s1, SyncLog);
    s3 := Apply(c, s2, ApplyMem);
    s4 := Apply(c, s3, WriteMarker(n));
    s5 := Apply(c, s4, Invalidate);
  }

  /** The three steps of a flush. */
  lemma {:induction false} FlushEffect(c: Codec, s: State) returns (s1: State, s2: State, s3: State)
    requires s.phase.Idle? && s.mem != map[] && s.levels != []
    ensures Enabled(c, s, BeginFlush) && s1 == Apply(c, s, BeginFlush)
    ensures Enabled(c, s1, FinishFlush) && s2 == Apply(c, s1, FinishFlush)
    ensures Enabled(c, s2, Rotate) && s3 == Apply(c, s2, Rotate)
    ensures s1.phase.Flushing? && s1.live == s.live && s2.phase.Flushed?
    ensures s3 == s.(mem := map[], imm := None, files := s.files + [File(0, s.nextId, Some(s.mem))], nextId := s.nextId + 1,
                     levels := s.levels[0 := s.levels[0] + [Loaded(s.nextId, s.mem)]], log := [], synced := 0, intact := true)
  {
    hide ReadStores;
    s1 := Apply(c, s, BeginFlush);
    s2 := Apply(c, s1, FinishFlush);
    s3 := Apply(c, s2, Rotate);
    assert s1.files[..|s1.files| - 1] == s.files;
  }

  /** Starting a compaction and completing its merged table. */
  lemma {:induction false} CompactEffect(c: Codec, s: State, level: nat) returns (s1: State, s2: State)
    requires s.phase.Idle? && level < |s.levels|
    ensures Enabled(c, s, BeginCompact(level)) && s1 == Apply(c, s, BeginCompact(level))
    ensures Enabled(c, s1, FinishCompact) && s2 == Apply(c, s1, FinishCompact)
    ensures s1.phase == Compacting(level, s.nextId) && s1.live == s.live
    ensures var wide := Widen(s.levels, level + 2);
      var merged := Loaded(s.nextId, MergeAll(wide[level] + wide[level + 1]));
      s2 == s.(levels := wide, files := s.files + [File(level + 1, s.nextId, Some(merged.content))], nextId := s.nextId + 1,
               phase := Deleting(level, merged, wide[level], wide[level + 1]))
  {
    hide ReadStores, MergeAll;
    s1 := Apply(c, s, BeginCompact(level));
    s2 := Apply(c, s1, FinishCompact);
    assert s1.files[..|s1.files| - 1] == s.files;
  }

  /** Deleting the next source. */
  lemma {:induction false} DeleteEffect(c: Codec, s: State, level: nat, merged: Loaded, upper: seq<Loaded>, lower: seq<Loaded>)
    requires s.phase == Deleting(level, merged, upper, lower) && upper + lower != []
    ensures Enabled(c, s, DeleteSource)
    ensures Apply(c, s, DeleteSource) ==
      if upper != [] then s.(files := RemoveFile(s.files, upper[0].id), phase := Deleting(level, merged, upper[1..], lower))
      else s.(files := RemoveFile(s.files, lower[0].id), phase := Deleting(level, merged, upper, lower[1..]))
  {
    hide ReadStores, RemoveFile;
  }

  lemma {:induction false} SwapEffect(c: Codec, s: State, level: nat, merged: Loaded)
    requires s.phase == Deleting(level, merged, [], []) && level + 1 < |s.levels|
    ensures Enabled(c, s, SwapLevels)
    ensures Apply(c, s, SwapLevels) == s.(levels := s.levels[level := []][level + 1 := [merged]], phase := Idle)
  {
    hide ReadStores;
    assert s.phase.upper + s.phase.lower == [];
  }

  lemma {:induction false} FillEffect(c: Codec, s: State, k: Key, evicted: set<Key>)
    requires s.phase.Idle? && ReadStores(s, k).Some?
    ensures Enabled(c, s, CacheFill(k, evicted))
    ensures Apply(c, s, CacheFill(k, evicted)) == s.(cache := s.cache[k := ReadStores(s, k).value] - evicted)
  {
    hide ReadStores;
  }

  /** `after` goes on from `before` without a crash. */
  ghost predicate Extends(before: seq<Step>, after: seq<Step>) {
    before <= after && LsmSafety.CrashFree(after[|before|..])
  }

  lemma {:induction false} ExtendsSnoc(before: seq<Step>, after: seq<Step>, step: Step)
    requires Extends(before, after) && !step.Crash?
    ensures Extends(before, after + [step])
  {
    assert (after + [step])[|before|..] == after[|before|..] + [step];
  }

  // ----- the tree ----------------------------------------------------------------------

  /** The sizing formulas give some bits and probes, in range for any table a tree can hold. */
  ghost predicate Sized(filterSize: nat -> (nat, nat)) {
    forall n: nat :: n < U32_LIMIT ==> 0 < filterSize(n).0 <= 64 * (U32_LIMIT - 1) && 0 < filterSize(n).1 < U32_LIMIT
  }

  class Tree {
    const c: Codec
    const h: Bloom.Hashes
    const maxMemBytes: int
    const filterSize: nat -> (nat, nat)  // NewBloomFilter's sizing formulas
    var memtable: MemTable.Table
    var immutable: MemTable.Table?
    var levels: seq<seq<Sst>>
    var wal: Wal.Log
    var blockCache: LruCache.Cache
    var dir: seq<DirFile>
    var nextId: nat  // the clock part of table file names: strictly increasing
    ghost var run: seq<Step>
    ghost var st: State

    /** The object's fields are the machine state reached by the steps taken so far. */
    ghost predicate Bound()
      reads this, memtable, immutable, wal, blockCache
    {
      && Exec(c, run) == Some(st) && maxMemBytes > 0
      && Sized(filterSize)
      && memtable.Valid() && memtable.c == c && st.mem == memtable.data && memtable != immutable
      && st.imm == (if immutable == null then None else Some(immutable.data))
      && st.levels == AbsLevels(c, levels) && LevelsFormed(c, h, levels)
      && st.files == AbsFiles(c, dir) && FilesFormed(c, h, dir) && st.nextId == nextId
      && st.log == wal.file && st.synced == wal.synced
      && blockCache.Valid() && CacheAgrees(c, blockCache.items, st.cache)
    }

    ghost predicate Valid()
      reads this, memtable, immutable, wal, blockCache
    {
      Bound() && st.phase.Idle?
    }

    /** Record one machine step. */
    ghost method TakeStep(step: Step)
      requires Exec(c, run) == Some(st) && Enabled(c, st, step)
      modifies this`run, this`st
      ensures run == old(run) + [step] && st == Apply(c, old(st), step) && Exec(c, run) == Some(st)
    {
      hide Apply, Enabled;
      assert (run + [step])[..|run|] == run;
      st := Apply(c, st, step);
      run := run + [step];
    }

    /** NewLSMTree: open a directory and log left behind by any earlier life of the tree, which
        ended in a crash (or close) that kept `log`; an empty directory is the crash of an
        untouched tree. */
    constructor (c: Codec, h: Bloom.Hashes, maxMemBytes: int, filterSize: nat -> (nat, nat),
                 dir: seq<DirFile>, log: Bytes, nextId: nat, ghost past: seq<Step>, ghost s: State)
      requires FilesFormed(c, h, dir)
      requires Sized(filterSize)
      requires Exec(c, past) == Some(s) && Enabled(c, s, Crash(|log|))
      requires s.files == AbsFiles(c, dir) && log == s.log[..|log|] && nextId == s.nextId
      ensures Valid() && fresh(memtable) && fresh(wal) && fresh(blockCache) && immutable == null
      ensures run == past + [Crash(|log|)] && this.c == c
      ensures this.maxMemBytes == if maxMemBytes <= 0 then DEFAULT_MEM_BYTES else maxMemBytes
    {
      hide Apply, Enabled, Exec, SsTable.Opened, SsTable.TableMap, SsTable.WellFormed, ReplayMem, LoadLevels, Wal.Replayed, Wal.MaxSeq, Wal.ParseAll, AbsTables, AbsFile;
      CrashEffect(c, s, |log|);
      this.c, this.h, this.filterSize := c, h, filterSize;
      this.maxMemBytes := if maxMemBytes <= 0 then DEFAULT_MEM_BYTES else maxMemBytes;
      this.dir, this.nextId := dir, nextId;
      this.wal := new Wal.Log(log);
      this.blockCache := new LruCache.Cache(CACHE_ENTRIES);
      this.immutable := null;
      var ls := OpenLevels(c, h, dir);
      this.levels := ls;
      var mem := new MemTable.Table(c);
      this.memtable := mem;
      this.run := past;
      this.st := s;
      new;
      TakeStep(Crash(|log|));
      var records := wal.Replay();
      ReplayInto(c, memtable, records);
    }

    lemma {:induction false} BoundFacts()
      requires Bound()
      ensures Exec(c, run) == Some(st)
      ensures st.mem == memtable.data && (immutable == null <==> st.imm.None?) && st.levels == AbsLevels(c, levels)
      ensures st.log == wal.file && maxMemBytes > 0 && memtable.Valid() && memtable.c == c
    {}

    /** The stores in read order: memtable, immutable memtable, then the levels. */
    method ReadAll(k: Key) returns (best: Option<StatEntry>)
      requires Bound()
      ensures best == ReadStores(st, k)
    {
      hide Exec, AbsTables, AbsFiles, FilesFormed, Formed, MemTable.Total, PickNewer, ReadTables;
      best := ComputeNewer(None, if k in memtable.data then Some(memtable.data[k]) else None);
      if immutable != null {
        best := ComputeNewer(best, if k in immutable.data then Some(immutable.data[k]) else None);
      }
      assert best == ReadMem(st, k);
      var l := 0;
      while l < |levels|
        invariant 0 <= l <= |levels|
        invariant ReadLevels(st.levels, l, k, best) == ReadStores(st, k)
      {
        best := ReadLevel(c, h, levels[l], k, l > 0, best);
        AbsLevelsSize(c, levels);
        TablesSize(c, levels[l]);
        l := l + 1;
      }
    }

    /** LSMTree.Read: the cache if it has the key, else all stores; the answer is cached. */
    method Read(k: Key) returns (r: Option<StatEntry>)
      requires Valid()
      modifies this`run, this`st, blockCache
      ensures Valid() && r == LsmMachine.Read(old(st), k) && LsmSafety.Best(r, k, st.live)
      ensures r.Some? ==> k in blockCache.items
      ensures st.live == old(st.live) && st.written == old(st.written) && Extends(old(run), run)
    {
      hide Exec, Apply, Enabled, AbsLevels, AbsFiles, LevelsFormed, FilesFormed, MemTable.Total, ReadStores, LsmSafety.Best, LruCache.Without, LruCache.ItemsOf, LruCache.Distinct, EntryKey;
      ReadIsBest(c, run, st, k);
      ExtendsNothing(run);
      var cached := blockCache.Get(k);
      if cached.Some? {
        var e := c.dec(cached.value);
        if e.Some? { return e; }
      }
      r := ReadAll(k);
      if r.Some? { FillCache(k, r.value); }
    }

    /** Put a read's answer into the cache; the machine step names what was evicted. */
    method FillCache(k: Key, e: StatEntry)
      requires Valid() && ReadStores(st, k) == Some(e)
      modifies this`run, this`st, blockCache
      ensures Valid() && st == old(st).(cache := st.cache) && Extends(old(run), run) && k in blockCache.items
    {
      hide Exec, Apply, Enabled, AbsLevels, AbsFiles, LevelsFormed, FilesFormed, MemTable.Total, ReadStores, Extends, LruCache.Without, LruCache.ItemsOf, LruCache.Distinct;
      ghost var before := blockCache.items;
      blockCache.Put(k, c.enc(e));
      ghost var evicted := before.Keys + {k} - blockCache.items.Keys;
      FillEffect(c, st, k, evicted);
      AnswerDecodes(c, run, st, k);
      FilledAgrees(c, before, blockCache.items, st.cache, k, e, evicted);
      ExtendsNothing(run);
      ExtendsSnoc(run, run, CacheFill(k, evicted));
      TakeStep(CacheFill(k, evicted));
    }

    method Flush()
      requires Valid() && |st.live| < U32_LIMIT
      modifies this, wal
      ensures Valid() && st.live == old(st.live) && st.written == old(st.written) && Extends(old(run), run)
      ensures memtable.data == map[]
      ensures wal == old(wal) && blockCache == old(blockCache) && (memtable == old(memtable) || fresh(memtable))
    {
      FlushLocked();
    }

    /** LSMTree.Scan: one entry per key, the newest of its matching versions. */
    method Scan(match_: StatEntry -> bool) returns (out: seq<StatEntry>)
      requires Valid()
      ensures DistinctKeys(out) && ToMap(out) == LsmScan.Scan(st, match_)
    {
      hide Exec, AbsTables, AbsFiles, FilesFormed, Formed, MemTable.Total, Inv, Keyed, AllKeyed, DistinctKeys, ToMap, MergeTable, EntriesOk, EntryKey;
      StateFacts(c, run, st);
      AbsLevelsSize(c, levels);
      KeyedKeys(memtable.data, st.live);
      var hits := MatchingEntries(memtable.data, match_);
      var merged := MergeInto(map[], hits);
      ghost var done := [Loaded(0, memtable.data)];
      FirstSource(memtable.data, match_);
      var l := 0;
      ghost var start := done;
      assert done == start + LsmScan.Flatten(st.levels[..0]) by { assert st.levels[..0] == []; }
      while l < |levels|
        invariant 0 <= l <= |levels|
        invariant done == start + LsmScan.Flatten(st.levels[..l])
        invariant merged == MergeAll(LsmScan.MatchingAll(done, match_))
      {
        merged := MergeLevel(c, h, levels[l], match_, merged, done, st.live);
        done := done + AbsTables(c, levels[l]);
        assert st.levels[..l + 1][..l] == st.levels[..l];
        l := l + 1;
      }
      assert st.levels[..|st.levels|] == st.levels;
      assert start + [] == start;
      assert done == LsmScan.Sources(st);
      assert Keyed(merged, st.live) by { ScanKeyed(c, st, match_); }
      KeyedKeys(merged, st.live);
      out := MemTable.Entries(merged);
    }

    // Each of the following methods performs one atomic effect of the source and takes the
    // machine step that models it, so that the object matches a machine state at every point
    // where a crash could strike.

    /** The log append of a write, fsynced. */
    method LogEntry(e: StatEntry) returns (n: nat)
      requires Valid() && Admissible(c, e)
      modifies this`run, this`st, wal
      ensures Bound() && n < U64_LIMIT
      ensures Enabled(c, old(st), BeginAppend(e, n)) && Enabled(c, Apply(c, old(st), BeginAppend(e, n)), SyncLog)
      ensures st == Apply(c, Apply(c, old(st), BeginAppend(e, n)), SyncLog)
      ensures run == old(run) + [BeginAppend(e, n)] + [SyncLog]
    {
      hide Exec, Wal.Encode, Wal.Whole, Admissible, AbsLevels, AbsFiles, LevelsFormed, FilesFormed, MemTable.Total, EntryKey, ReadStores;
      n := wal.Append(EntryKey(e), c.enc(e));
      TakeStep(BeginAppend(e, n));
      TakeStep(SyncLog);
    }

    method ApplyEntry(e: StatEntry)
      requires Bound() && st.phase == Logged(e)
      modifies this`run, this`st, memtable
      ensures Bound() && Enabled(c, old(st), ApplyMem) && st == Apply(c, old(st), ApplyMem) && run == old(run) + [ApplyMem]
    {
      hide Exec, PutMem, AbsLevels, AbsFiles, LevelsFormed, FilesFormed, MemTable.Total, EntryKey, ReadStores;
      memtable.Put(EntryKey(e), e);
      TakeStep(ApplyMem);
    }

    method MarkEntry(n: nat)
      requires Bound() && st.phase.Applied? && n < U64_LIMIT
      modifies this`run, this`st, wal
      ensures Bound() && Enabled(c, old(st), WriteMarker(n)) && st == Apply(c, old(st), WriteMarker(n)) && run == old(run) + [WriteMarker(n)]
    {
      hide Exec, Wal.Encode, AbsLevels, AbsFiles, LevelsFormed, FilesFormed, MemTable.Total, EntryKey, ReadStores;
      wal.Commit(n);
      TakeStep(WriteMarker(n));
    }

    method InvalidateEntry(e: StatEntry)
      requires Bound() && st.phase == Marked(e)
      modifies this`run, this`st, blockCache
      ensures Valid() && Enabled(c, old(st), Invalidate) && st == Apply(c, old(st), Invalidate) && run == old(run) + [Invalidate]
      ensures EntryKey(e) !in blockCache.items
    {
      hide Exec, AbsLevels, AbsFiles, LevelsFormed, FilesFormed, MemTable.Total, EntryKey, ReadStores, LruCache.Without, LruCache.ItemsOf, LruCache.Distinct;
      blockCache.Remove(EntryKey(e));
      TakeStep(Invalidate);
    }

    /** LSMTree.Write: log first, then memtable, then marker, then cache invalidation; a full
        memtable is flushed before the write is acknowledged. */
    method Write(e: StatEntry)
      requires Valid() && Admissible(c, e) && |st.live + {e}| < U32_LIMIT
      modifies this, memtable, wal, blockCache
      ensures Valid() && st.live == old(st.live) + {e} && st.written == old(st.written) + {e}
      ensures memtable.size <= maxMemBytes && EntryKey(e) !in blockCache.items
      ensures Extends(old(run), run)
      ensures wal == old(wal) && blockCache == old(blockCache) && (memtable == old(memtable) || fresh(memtable))
    {
      hide Apply, Enabled, Bound, Wal.Encode, Wal.Whole, PutMem, Admissible, EntryKey, Extends;
      ghost var s0, run0 := st, run;
      var n := LogEntry(e);
      ghost var s1, s2, s3, s4, s5 := WriteEffect(c, s0, e, n);
      ApplyEntry(e);
      MarkEntry(n);
      InvalidateEntry(e);
      assert Extends(run0, run) by { ExtendsByWrite(run0, e, n); }
      if memtable.size > maxMemBytes {
        ghost var run1 := run;
        FlushLocked();
        ExtendsTrans(run0, run1, run);
        BoundFacts();
        EmptyWeighsNothing(c);
      }
    }

    /** flushLocked: swap the memtable out, write it to a level-0 table, rotate the log, and
        compact level 0 when it holds more than four tables. */
    method FlushLocked()
      requires Valid() && |st.live| < U32_LIMIT
      modifies this, wal
      ensures Valid() && st.live == old(st.live) && st.written == old(st.written)
      ensures memtable.data == map[]
      ensures if old(memtable.data) == map[] then st == old(st)
              else wal.file == [] && |levels| > 0 && |levels[0]| <= LEVEL0_COMPACT
      ensures Extends(old(run), run)
      ensures wal == old(wal) && blockCache == old(blockCache) && (memtable == old(memtable) || fresh(memtable))
    {
      hide Apply, Enabled, Exec, Bound, Extends, Inv, AbsLevels, EntriesOk, Keyed, AllKeyed;
      ghost var s0, run0 := st, run;
      BoundFacts();
      StateFacts(c, run, st);
      ExtendsNothing(run);
      if memtable.data == map[] { return; }
      ghost var s1, s2, s3 := FlushEffect(c, s0);
      SwapMemtable();
      FinishTable();
      RotateLog();
      assert Extends(run0, run) by { ExtendsByFlush(run0); }
      BoundFacts();
      AbsLevelsSize(c, levels);
      var tables := |levels[0]|;
      if tables > LEVEL0_COMPACT {
        ghost var run1 := run;
        CompactLocked(0);
        ExtendsTrans(run0, run1, run);
      }
    }

    /** Swap in a fresh memtable and create the table file. */
    method SwapMemtable()
      requires Valid() && memtable.data != map[]
      modifies this
      ensures Bound() && Enabled(c, old(st), BeginFlush) && st == Apply(c, old(st), BeginFlush) && run == old(run) + [BeginFlush]
      ensures wal == old(wal) && blockCache == old(blockCache) && fresh(memtable)
    {
      hide Exec, AbsLevels, AbsFiles, LevelsFormed, FilesFormed, MemTable.Total, EntryKey, Apply, Enabled, CacheAgrees;
      BeginFlushEffect(c, st);
      immutable := memtable;
      memtable := new MemTable.Table(c);
      NewFile(c, h, dir, 0, nextId);
      dir := dir + [DirFile(0, nextId, [])];
      nextId := nextId + 1;
      TakeStep(BeginFlush);
    }

    /** Write entries, given in any order, to the bytes of a new table. */
    method WriteEntries(es: seq<StatEntry>, ghost live: set<StatEntry>, ghost written: set<StatEntry>) returns (t: SsTable.Table)
      requires DistinctKeys(es) && Keyed(ToMap(es), live) && EntriesOk(c, written, live) && |live| < U32_LIMIT
      requires Sized(filterSize)
      ensures SsTable.WellFormed(c, h, t) && SsTable.TableMap(c, t) == ToMap(es) && SsTable.Opened(t.file) == Some(t)
    {
      hide EntryKey, SsTable.WellFormed, SsTable.TableMap, SsTable.Opened, ToMap, EntriesOk;
      ToMapMembers(es);
      EntriesFit(c, written, live, ToMap(es), es);
      var size := filterSize(|es|);
      var r := SsTable.WriteTable(c, h, es, size.0, size.1);
      t := r.value;
    }

    /** The bytes of the level-0 table for the immutable memtable. */
    method FlushedTable() returns (t: SsTable.Table)
      requires Bound() && st.phase.Flushing? && |st.live| < U32_LIMIT
      ensures immutable != null && st.imm.Some? && st.files != [] && st.files[|st.files| - 1] == File(0, st.phase.id, None) && st.levels != []
      ensures SsTable.WellFormed(c, h, t) && SsTable.TableMap(c, t) == st.imm.value && SsTable.Opened(t.file) == Some(t)
    {
      hide Exec, AbsLevels, AbsFiles, LevelsFormed, FilesFormed, MemTable.Total, EntryKey, SsTable.Opened, SsTable.TableMap, SsTable.WellFormed, Keyed, EntriesOk, ToMap, Ordered, DistinctKeys;
      FlushFacts(c, run, st);
      KeyedKeys(immutable.data, st.live);
      var es := immutable.SortedEntries();
      OrderedDistinct(es);
      t := WriteEntries(es, st.live, st.written);
    }

    /** Complete the level-0 table and open it. */
    method FinishTable()
      requires Bound() && st.phase.Flushing? && |st.live| < U32_LIMIT
      modifies this
      ensures Bound() && Enabled(c, old(st), FinishFlush) && st == Apply(c, old(st), FinishFlush) && run == old(run) + [FinishFlush]
      ensures wal == old(wal) && blockCache == old(blockCache) && memtable == old(memtable) && immutable == null
    {
      hide Exec, AbsLevels, AbsFiles, LevelsFormed, FilesFormed, MemTable.Total, EntryKey, ReadStores, SsTable.Opened, SsTable.TableMap, SsTable.WellFormed;
      var t := FlushedTable();
      AbsLevelsSize(c, levels);
      LastFileId(c, dir);
      var id := dir[|dir| - 1].id;
      CompleteFile(c, h, dir, DirFile(0, id, t.file), t);
      AppendLevel0(c, h, levels, Sst(id, t));
      dir := dir[..|dir| - 1] + [DirFile(0, id, t.file)];
      levels := levels[0 := levels[0] + [Sst(id, t)]];
      immutable := null;
      TakeStep(FinishFlush);
    }

    method RotateLog()
      requires Bound() && st.phase.Flushed? && immutable == null
      modifies this`run, this`st, wal
      ensures Valid() && Enabled(c, old(st), Rotate) && st == Apply(c, old(st), Rotate) && run == old(run) + [Rotate]
    {
      hide Exec, AbsLevels, AbsFiles, LevelsFormed, FilesFormed, MemTable.Total, EntryKey, ReadStores;
      wal.Rotate();
      TakeStep(Rotate);
    }

    /** compactLocked: merge all tables of a level and the next into one table of the next level,
        keeping the newest version of each key, then delete the sources. Called only when the
        level holds more than four tables; the level below always ends up with exactly one, so
        the source's recursive call is never taken. */
    method CompactLocked(level: nat)
      requires Valid() && |st.live| < U32_LIMIT && level < |levels| && |levels[level]| > LEVEL0_COMPACT
      modifies this
      ensures Valid() && st.live == old(st.live) && st.written == old(st.written)
      ensures level + 1 < |levels| && |levels[level]| == 0 && |levels[level + 1]| == 1
      ensures Extends(old(run), run)
      ensures wal == old(wal) && blockCache == old(blockCache) && memtable == old(memtable)
    {
      hide Apply, Enabled, Exec, Bound, Extends, AbsLevels, AbsTables, MergeAll, RemoveFile;
      ghost var s0, run0 := st, run;
      BoundFacts();
      AbsLevelsSize(c, levels);
      ghost var s1, s2 := CompactEffect(c, s0, level);
      StartCompact(level);
      var t := FinishMerged(level);
      assert Extends(run0, run) by { ExtendsByCompact(run0, level); }
      BoundFacts();
      AbsLevelsSize(c, levels);
      DeleteSources(level, run0);
      SwapIn(level, t, run0);
    }

    method StartCompact(level: nat)
      requires Valid() && level < |levels|
      modifies this
      ensures Bound() && Enabled(c, old(st), BeginCompact(level)) && st == Apply(c, old(st), BeginCompact(level))
      ensures run == old(run) + [BeginCompact(level)] && level + 1 < |levels|
      ensures wal == old(wal) && blockCache == old(blockCache) && memtable == old(memtable) && immutable == old(immutable)
    {
      AbsLevelsSize(c, levels);
      hide Exec, AbsLevels, AbsFiles, FilesFormed, MemTable.Total, EntryKey, Apply, Enabled, LevelsFormed, CacheAgrees, Widen;
      BeginCompactEffect(c, st, level);
      levels := WidenLevels(c, h, levels, level + 2);
      NewFile(c, h, dir, level + 1, nextId);
      dir := dir + [DirFile(level + 1, nextId, [])];
      nextId := nextId + 1;
      TakeStep(BeginCompact(level));
    }

    /** Merge the sources and write the bytes of the merged table. */
    method MergedTable(level: nat) returns (t: SsTable.Table)
      requires Bound() && st.phase.Compacting? && st.phase.level == level && |st.live| < U32_LIMIT && level + 1 < |levels|
      ensures level + 1 < |st.levels| && st.files != [] && st.files[|st.files| - 1] == File(level + 1, st.phase.id, None)
      ensures SsTable.WellFormed(c, h, t) && SsTable.Opened(t.file) == Some(t)
      ensures SsTable.TableMap(c, t) == MergeAll(st.levels[level] + st.levels[level + 1])
    {
      hide Exec, AbsLevels, AbsTables, AbsFiles, Formed, FilesFormed, MemTable.Total, EntryKey, SsTable.Opened, SsTable.TableMap, SsTable.WellFormed, Keyed, EntriesOk, ToMap, DistinctKeys, MergeAll, AllKeyed;
      CompactFacts(c, run, st);
      AbsLevelsSize(c, levels);
      FormedConcat(c, h, levels[level], levels[level + 1]);
      AbsTablesConcat(c, levels[level], levels[level + 1]);
      var merged := MergeTables(c, h, levels[level] + levels[level + 1], st.live);
      KeyedKeys(merged, st.live);
      var es := MemTable.Entries(merged);
      t := WriteEntries(es, st.live, st.written);
    }

    /** Complete the merged table and open it. */
    method FinishMerged(level: nat) returns (t: Sst)
      requires Bound() && st.phase.Compacting? && st.phase.level == level && |st.live| < U32_LIMIT && level + 1 < |levels|
      modifies this`dir, this`run, this`st
      ensures Bound() && Enabled(c, old(st), FinishCompact) && st == Apply(c, old(st), FinishCompact) && run == old(run) + [FinishCompact]
      ensures SsTable.WellFormed(c, h, t.table) && st.phase.Deleting? && st.phase.merged == Loaded(t.id, SsTable.TableMap(c, t.table))
    {
      hide Exec, AbsLevels, AbsFiles, LevelsFormed, FilesFormed, MemTable.Total, EntryKey, ReadStores, SsTable.Opened, SsTable.TableMap, SsTable.WellFormed, MergeAll;
      var table := MergedTable(level);
      LastFileId(c, dir);
      var id := dir[|dir| - 1].id;
      CompleteFile(c, h, dir, DirFile(level + 1, id, table.file), table);
      dir := dir[..|dir| - 1] + [DirFile(level + 1, id, table.file)];
      t := Sst(id, table);
      TakeStep(FinishCompact);
    }

    /** Remove the file of the next source. */
    method DeleteFile(id: nat, ghost level: nat, ghost merged: Loaded, ghost upper: seq<Loaded>, ghost lower: seq<Loaded>)
      requires Bound() && st.phase == Deleting(level, merged, upper, lower) && upper + lower != []
      requires id == (upper + lower)[0].id
      modifies this`dir, this`run, this`st
      ensures Bound() && Enabled(c, old(st), DeleteSource) && st == Apply(c, old(st), DeleteSource) && run == old(run) + [DeleteSource]
    {
      hide Exec, Apply, Enabled, AbsLevels, AbsFiles, LevelsFormed, FilesFormed, MemTable.Total, RemoveFile, RemoveDir;
      DeleteEffect(c, st, level, merged, upper, lower);
      AbsRemove(c, h, dir, id);
      dir := RemoveDir(dir, id);
      TakeStep(DeleteSource);
    }

    /** Delete every source file, oldest level first. */
    method DeleteSources(level: nat, ghost run0: seq<Step>)
      requires Bound() && level + 1 < |levels| && st.phase.Deleting? && st.phase.level == level
      requires st.phase.upper == AbsTables(c, levels[level]) && st.phase.lower == AbsTables(c, levels[level + 1])
      requires Extends(run0, run)
      modifies this`dir, this`run, this`st
      ensures Bound() && st.phase == Deleting(level, old(st).phase.merged, [], [])
      ensures st == old(st).(files := st.files, phase := st.phase) && Extends(run0, run)
    {
      hide Bound, Exec, Apply, Enabled, Extends, SsTable.TableMap, RemoveFile;
      var sources := levels[level] + levels[level + 1];
      ghost var merged: Loaded, upper: seq<Loaded>, lower: seq<Loaded> := st.phase.merged, st.phase.upper, st.phase.lower;
      AbsTablesConcat(c, levels[level], levels[level + 1]);
      var i := 0;
      ghost var s0 := st;
      while i < |sources|
        invariant 0 <= i <= |sources| && |upper| <= |levels[level]|
        invariant Bound() && st == s0.(files := st.files, phase := st.phase) && Extends(run0, run)
        invariant st.phase == Deleting(level, merged, upper, lower) && upper + lower == AbsTables(c, sources)[i..]
      {
        assert (upper + lower)[0].id == sources[i].id;
        DeleteEffect(c, st, level, merged, upper, lower);
        ExtendsSnoc(run0, run, DeleteSource);
        DeleteFile(sources[i].id, level, merged, upper, lower);
        assert AbsTables(c, sources)[i..][1..] == AbsTables(c, sources)[i + 1..];
        if upper != [] { upper := upper[1..]; } else { lower := lower[1..]; }
        i := i + 1;
      }
      assert upper + lower == [];
    }

    /** Replace the two levels by the merged table. */
    method SwapIn(level: nat, t: Sst, ghost run0: seq<Step>)
      requires Bound() && level + 1 < |levels| && SsTable.WellFormed(c, h, t.table) && Extends(run0, run)
      requires st.phase == Deleting(level, Loaded(t.id, SsTable.TableMap(c, t.table)), [], [])
      modifies this`levels, this`run, this`st
      ensures Valid() && Extends(run0, run) && st.live == old(st.live) && st.written == old(st.written)
      ensures levels == old(levels)[level := []][level + 1 := [t]]
    {
      hide Exec, Apply, Enabled, Extends, AbsFiles, FilesFormed, MemTable.Total, SsTable.TableMap, SsTable.WellFormed, EntryKey;
      assert |st.levels| == |levels|;
      SwapEffect(c, st, level, Loaded(t.id, SsTable.TableMap(c, t.table)));
      ExtendsSnoc(run0, run, SwapLevels);
      SwapAbs(c, h, levels, level, t);
      levels := levels[level := []][level + 1 := [t]];
      TakeStep(SwapLevels);
    }
  }

  lemma {:induction false} EmptyWeighsNothing(c: Codec)
    ensures MemTable.Total(c, map[]) == 0
  {}

  lemma {:induction false} SwapAbs(c: Codec, h: Bloom.Hashes, ls: seq<seq<Sst>>, level: nat, t: Sst)
    requires level + 1 < |ls| && LevelsFormed(c, h, ls) && SsTable.WellFormed(c, h, t.table)
    ensures var ls' := ls[level := []][level + 1 := [t]];
      && LevelsFormed(c, h, ls')
      && AbsLevels(c, ls') == AbsLevels(c, ls)[level := []][level + 1 := [Loaded(t.id, SsTable.TableMap(c, t.table))]]
  {
    hide SsTable.TableMap, SsTable.WellFormed;
    assert AbsTables(c, []) == [] && AbsTables(c, [t]) == [Loaded(t.id, SsTable.TableMap(c, t.table))];
  }

  lemma {:induction false} AbsLevelsSize(c: Codec, ls: seq<seq<Sst>>)
    ensures |AbsLevels(c, ls)| == |ls| && forall l :: 0 <= l < |ls| ==> AbsLevels(c, ls)[l] == AbsTables(c, ls[l])
  {
    hide AbsTables;
  }

  lemma {:induction false} ExtendsByCompact(run: seq<Step>, level: nat)
    ensures Extends(run, run + [BeginCompact(level)] + [FinishCompact])
  {}

  /** What the invariant says while a compaction is writing its table. */
  lemma {:induction false} CompactFacts(c: Codec, run: seq<Step>, s: State)
    requires Exec(c, run) == Some(s) && s.phase.Compacting?
    ensures EntriesOk(c, s.written, s.live) && s.phase.level + 1 < |s.levels|
    ensures AllKeyed(s.levels[s.phase.level] + s.levels[s.phase.level + 1], s.live)
    ensures Keyed(MergeAll(s.levels[s.phase.level] + s.levels[s.phase.level + 1]), s.live)
    ensures s.files != [] && s.files[|s.files| - 1] == File(s.phase.level + 1, s.phase.id, None)
  {
    hide Exec, OnDisk, Durable, CacheFresh, Reflected, Keyed, Names, MergeAll, Stacked, Sane;
    LsmSafety.RunKeeps(c, run);
    var l := s.phase.level;
    assert LevelOk(s.levels[l], l, s.live) && LevelOk(s.levels[l + 1], l + 1, s.live);
    assert forall x <- s.live :: Sane(x) by { LsmScan.AdmissibleSane(c, s); }
    MergeDominates(s.levels[l] + s.levels[l + 1], s.live);
  }

  /** A table scan lists exactly the matching part of the table. */
  lemma {:induction false} ScannedMap(c: Codec, h: Bloom.Hashes, t: SsTable.Table, match_: StatEntry -> bool, live: set<StatEntry>)
    requires SsTable.WellFormed(c, h, t) && Keyed(SsTable.TableMap(c, t), live)
    ensures forall i :: 0 <= i < |t.sortedKeys| ==> t.sortedKeys[i] in SsTable.TableMap(c, t)
    ensures var es, m := SsTable.Scanned(c, t, match_, |t.sortedKeys|), SsTable.TableMap(c, t);
      DistinctKeys(es) && ToMap(es) == map k | k in m && match_(m[k]) :: m[k]
  {
    hide EntryKey, SsTable.WellFormed, SsTable.TableMap, SsTable.Scanned, ToMap, Less;
    KeyedKeys(SsTable.TableMap(c, t), live);
    SsTable.ScannedExact(c, h, t, match_);
    var es, m := SsTable.Scanned(c, t, match_, |t.sortedKeys|), SsTable.TableMap(c, t);
    OrderedDistinct(es);
    ToMapMembers(es);
    hide DistinctKeys, Ordered, Keyed;
    forall k ensures k in ToMap(es) <==> k in m && match_(m[k]) {
      if k in m && match_(m[k]) { assert m[k] in es; }
    }
  }

  lemma {:induction false} AllMatch(m: TableMap, match_: StatEntry -> bool)
    requires forall e :: match_(e)
    ensures (map k | k in m && match_(m[k]) :: m[k]) == m
  {}

  /** The merge loop of a compaction over its sources. */
  method MergeTables(c: Codec, h: Bloom.Hashes, ts: seq<Sst>, ghost live: set<StatEntry>) returns (merged: TableMap)
    requires Formed(c, h, ts) && AllKeyed(AbsTables(c, ts), live)
    ensures merged == MergeAll(AbsTables(c, ts))
  {
    hide SsTable.WellFormed, SsTable.TableMap, SsTable.Scanned, Keyed, DistinctKeys, ToMap, MergeTable;
    merged := map[];
    var everything := (e: StatEntry) => true;
    var i := 0;
    assert AbsTables(c, ts[..0]) == [];
    while i < |ts|
      invariant 0 <= i <= |ts| && merged == MergeAll(AbsTables(c, ts[..i]))
    {
      var t := ts[i].table;
      assert AbsTables(c, ts)[i].content == SsTable.TableMap(c, t);
      ScannedMap(c, h, t, everything, live);
      var all := SsTable.ScanEntries(c, h, t, everything);
      AllMatch(SsTable.TableMap(c, t), everything);
      merged := MergeInto(merged, all.value);
      assert AbsTables(c, ts[..i + 1])[..i] == AbsTables(c, ts[..i]);
      i := i + 1;
    }
    assert ts[..|ts|] == ts;
  }

  lemma {:induction false} ReadIsBest(c: Codec, run: seq<Step>, s: State, k: Key)
    requires Exec(c, run) == Some(s) && s.phase.Idle?
    ensures LsmSafety.Best(LsmMachine.Read(s, k), k, s.live)
  {
    LsmSafety.ReadReturnsBest(c, run, k);
  }

  lemma {:induction false} FilledAgrees(c: Codec, before: map<Key, Bytes>, after: map<Key, Bytes>, cache: map<Key, StatEntry>,
                                        k: Key, e: StatEntry, evicted: set<Key>)
    requires CacheAgrees(c, before, cache) && c.dec(c.enc(e)) == Some(e)
    requires k in after && after[k] == c.enc(e) && after.Keys <= before.Keys + {k} && evicted == before.Keys + {k} - after.Keys
    requires forall x <- after.Keys :: x != k ==> after[x] == before[x]
    ensures CacheAgrees(c, after, cache[k := e] - evicted)
  {}

  /** An answer of the stores was logged, so the codec carries it. */
  lemma {:induction false} AnswerDecodes(c: Codec, run: seq<Step>, s: State, k: Key)
    requires Exec(c, run) == Some(s) && s.phase.Idle? && ReadStores(s, k).Some?
    ensures c.dec(c.enc(ReadStores(s, k).value)) == Some(ReadStores(s, k).value)
  {
    hide Exec, ReadStores;
    StateFacts(c, run, s);
    LsmSafety.ReadStoresCorrect(c, s, k, ReadStores(s, k).value);
    assert Admissible(c, ReadStores(s, k).value);
  }

  lemma {:induction false} TablesSize(c: Codec, ts: seq<Sst>)
    ensures |AbsTables(c, ts)| == |ts|
  {}

  lemma {:induction false} ScanKeyed(c: Codec, s: State, match_: StatEntry -> bool)
    requires Inv(c, s)
    ensures Keyed(LsmScan.Scan(s, match_), s.live)
  {
    hide Inv, MergeAll, LsmScan.Sources;
    LsmScan.SourcesKeyed(c, s);
    var ts := LsmScan.Sources(s);
    assert AllKeyed(LsmScan.MatchingAll(ts, match_), s.live);
    hide Keyed, AllKeyed, Sane;
    assert forall x <- s.live :: Sane(x) by { LiveSane(c, s); }
    MergeDominates(LsmScan.MatchingAll(ts, match_), s.live);
  }

  lemma {:induction false} LiveSane(c: Codec, s: State)
    requires Inv(c, s)
    ensures forall x <- s.live :: Sane(x)
  {
    hide TablesOk, MemOk, Durable, Matches, Reflected, CacheFresh, Names;
    LsmScan.AdmissibleSane(c, s);
  }

  /** MemTable.Scan: the matching entries of a map, in an unspecified order. */
  method MatchingEntries(m: TableMap, match_: StatEntry -> bool) returns (es: seq<StatEntry>)
    requires forall k <- m.Keys :: EntryKey(m[k]) == k
    ensures DistinctKeys(es) && ToMap(es) == map k | k in m && match_(m[k]) :: m[k]
  {
    hide EntryKey, DistinctKeys, ToMap;
    es := [];
    assert DistinctKeys([]) && ToMap([]) == map[] by { MemTable.NothingDistinct(); }
    var left := m.Keys;
    while left != {}
      invariant left <= m.Keys && DistinctKeys(es)
      invariant ToMap(es) == map k | k in m && k !in left && match_(m[k]) :: m[k]
      decreases |left|
    {
      var k :| k in left;
      if match_(m[k]) {
        MemTable.AppendEntry(es, m[k]);
        es := es + [m[k]];
      }
      left := left - {k};
    }
  }

  lemma {:induction false} FirstSource(m: TableMap, match_: StatEntry -> bool)
    ensures MergeAll(LsmScan.MatchingAll([Loaded(0, m)], match_)) == MergeTable(map[], map k | k in m && match_(m[k]) :: m[k])
  {
    var ts := LsmScan.MatchingAll([Loaded(0, m)], match_);
    assert ts[..0] == [];
  }

  lemma {:induction false} NextSource(done: seq<Loaded>, t: Loaded, match_: StatEntry -> bool)
    ensures var m := t.content;
      MergeAll(LsmScan.MatchingAll(done + [t], match_)) ==
      MergeTable(MergeAll(LsmScan.MatchingAll(done, match_)), map k | k in m && match_(m[k]) :: m[k])
  {
    hide MergeTable;
    var all := LsmScan.MatchingAll(done + [t], match_);
    assert all[..|done|] == LsmScan.MatchingAll(done, match_);
  }

  /** The scan loop over one level's tables. */
  method MergeLevel(c: Codec, h: Bloom.Hashes, ts: seq<Sst>, match_: StatEntry -> bool, acc: TableMap,
                    ghost done: seq<Loaded>, ghost live: set<StatEntry>) returns (merged: TableMap)
    requires Formed(c, h, ts) && AllKeyed(AbsTables(c, ts), live)
    requires acc == MergeAll(LsmScan.MatchingAll(done, match_))
    ensures merged == MergeAll(LsmScan.MatchingAll(done + AbsTables(c, ts), match_))
  {
    hide SsTable.WellFormed, SsTable.TableMap, SsTable.Scanned, Keyed, DistinctKeys, ToMap, MergeTable, MergeAll, LsmScan.MatchingAll;
    merged := acc;
    var i := 0;
    assert done + AbsTables(c, ts)[..0] == done;
    while i < |ts|
      invariant 0 <= i <= |ts| && merged == MergeAll(LsmScan.MatchingAll(done + AbsTables(c, ts)[..i], match_))
    {
      var t := ts[i].table;
      ghost var loaded := AbsTables(c, ts)[i];
      assert loaded.content == SsTable.TableMap(c, t);
      ScannedMap(c, h, t, match_, live);
      var hits := SsTable.ScanEntries(c, h, t, match_);
      NextSource(done + AbsTables(c, ts)[..i], loaded, match_);
      merged := MergeInto(merged, hits.value);
      assert done + AbsTables(c, ts)[..i] + [loaded] == done + AbsTables(c, ts)[..i + 1];
      i := i + 1;
    }
    assert AbsTables(c, ts)[..|ts|] == AbsTables(c, ts);
  }

  lemma {:induction false} FormedConcat(c: Codec, h: Bloom.Hashes, xs: seq<Sst>, ys: seq<Sst>)
    requires Formed(c, h, xs) && Formed(c, h, ys)
    ensures Formed(c, h, xs + ys)
  {
    hide SsTable.WellFormed;
  }

  lemma {:induction false} LastFileId(c: Codec, fs: seq<DirFile>)
    ensures |AbsFiles(c, fs)| == |fs|
    ensures fs != [] ==> AbsFiles(c, fs)[|fs| - 1].id == fs[|fs| - 1].id
  {
    hide SsTable.Opened, SsTable.TableMap;
  }

  lemma {:induction false} KeyedKeys(m: TableMap, live: set<StatEntry>)
    requires Keyed(m, live)
    ensures forall k <- m.Keys :: EntryKey(m[k]) == k
  {}

  lemma {:induction false} NewFile(c: Codec, h: Bloom.Hashes, fs: seq<DirFile>, level: nat, id: nat)
    ensures var f := DirFile(level, id, []);
      AbsFiles(c, fs + [f]) == AbsFiles(c, fs) + [File(level, id, None)] && (FilesFormed(c, h, fs) ==> FilesFormed(c, h, fs + [f]))
  {
    assert SsTable.Opened([]) == None;
    hide SsTable.Opened;
    AbsSnoc(c, h, fs, DirFile(level, id, []));
  }

  /** Replacing the last, unfinished file by a complete table. */
  lemma {:induction false} CompleteFile(c: Codec, h: Bloom.Hashes, fs: seq<DirFile>, f: DirFile, t: SsTable.Table)
    requires fs != [] && f.bytes == t.file && SsTable.Opened(t.file) == Some(t) && SsTable.WellFormed(c, h, t)
    requires FilesFormed(c, h, fs)
    ensures AbsFiles(c, fs[..|fs| - 1] + [f]) == AbsFiles(c, fs)[..|fs| - 1] + [File(f.level, f.id, Some(SsTable.TableMap(c, t)))]
    ensures FilesFormed(c, h, fs[..|fs| - 1] + [f])
  {
    hide SsTable.Opened, SsTable.TableMap, SsTable.WellFormed;
    AbsSnoc(c, h, fs[..|fs| - 1], f);
  }

  /** What the invariant says while a flush is writing its table. */
  lemma {:induction false} FlushFacts(c: Codec, run: seq<Step>, s: State)
    requires Exec(c, run) == Some(s) && s.phase.Flushing?
    ensures s.imm.Some? && Keyed(s.imm.value, s.live) && EntriesOk(c, s.written, s.live)
    ensures s.levels != [] && s.files != [] && s.files[|s.files| - 1] == File(0, s.phase.id, None)
  {
    hide Exec, OnDisk, Durable, CacheFresh, Reflected, Keyed, Names, EntriesOk, TablesOk;
    LsmSafety.RunKeeps(c, run);
  }

  lemma {:induction false} ExtendsTrans(a: seq<Step>, b: seq<Step>, d: seq<Step>)
    requires Extends(a, b) && Extends(b, d)
    ensures Extends(a, d)
  {
    assert d[|a|..] == b[|a|..] + d[|b|..];
  }

  lemma {:induction false} ExtendsNothing(run: seq<Step>)
    ensures Extends(run, run)
  {}

  lemma {:induction false} ExtendsByWrite(run: seq<Step>, e: StatEntry, n: nat)
    ensures Extends(run, run + [BeginAppend(e, n)] + [SyncLog] + [ApplyMem] + [WriteMarker(n)] + [Invalidate])
  {}

  lemma {:induction false} ExtendsByFlush(run: seq<Step>)
    ensures Extends(run, run + [BeginFlush] + [FinishFlush] + [Rotate])
  {}
}
