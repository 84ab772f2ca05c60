/**
 The LSM tree as a state machine over its atomic effects (metastore/lsm.go): every change
 of the log file, of the table files and of the in-memory state is one step, and a crash
 may strike between any two of them, cutting the log at any byte that was not yet synced.
 */
module LsmMachine {
  import opened BigEndian
  import opened VectorClock
  import opened StatKey
  import Wal

  type TableMap = map<Key, StatEntry>

  /** An opened table and the unique, increasing number in its file name. */
  datatype Loaded = Loaded(id: nat, content: TableMap)

  /** A table file; `None` is a file whose footer was never completed. */
  datatype File = File(level: nat, id: nat, content: Option<TableMap>)

  datatype Phase =
    | Idle
    | Appending(e: StatEntry)  // record written, not yet fsynced
    | Logged(e: StatEntry)     // record durable, memtable not yet updated
    | Applied(e: StatEntry)    // memtable updated
    | Marked(e: StatEntry)     // commit marker written, cache not yet invalidated
    | Flushing(id: nat)        // memtable swapped out, table file incomplete
    | Flushed                  // table complete, log not yet rotated
    | Compacting(level: nat, id: nat)
    | Deleting(level: nat, merged: Loaded, upper: seq<Loaded>, lower: seq<Loaded>)  // sources left to delete

  datatype State = State(
    mem: TableMap,
    imm: Option<TableMap>,
    levels: seq<seq<Loaded>>,
    cache: map<Key, StatEntry>,
    files: seq<File>,          // directory listing in name order
    log: Bytes,
    synced: nat,               // log bytes known to be durable
    nextId: nat,
    phase: Phase,
    intact: bool,              // no record of this log generation was appended behind a torn tail
    written: set<StatEntry>,   // every entry ever submitted
    live: set<StatEntry>)      // every entry whose log append completed (or survived a crash)

  datatype Step =
    | BeginAppend(entry: StatEntry, seqNum: nat)
    | SyncLog
    | ApplyMem
    | WriteMarker(seqNum: nat)
    | Invalidate
    | BeginFlush
    | FinishFlush
    | Rotate
    | BeginCompact(level: nat)
    | FinishCompact
    | DeleteSource
    | SwapLevels
    | CacheFill(key: Key, evicted: set<Key>)
    | Crash(cut: nat)

  // ----- building blocks --------------------------------------------------------

  /** MemTable.Put. */
  ghost function PutMem(m: TableMap, k: Key, e: StatEntry): TableMap {
    m[k := if k in m then Newer(m[k], e) else e]
  }

  /** Of two versions of equal rank the memtable keeps the one it has. */
  lemma {:induction false} PutKeepsOnTies(m: TableMap, k: Key, e: StatEntry)
    requires k in m && Sane(m[k]) && Sane(e) && SameRank(m[k], e)
    ensures PutMem(m, k, e) == m
  {
    NewerIsRankMax(m[k], e);
  }

  /** loadLevels for one level: the complete tables in name order. */
  function OnDisk(files: seq<File>, level: nat): seq<Loaded> {
    if files == [] then []
    else
      var f := files[|files| - 1];
      var rest := OnDisk(files[..|files| - 1], level);
      if f.level == level && f.content.Some? then rest + [Loaded(f.id, f.content.value)] else rest
  }

  function TopLevel(files: seq<File>): nat {
    if files == [] then 0
    else
      var f := files[|files| - 1];
      var top := TopLevel(files[..|files| - 1]);
      if f.content.Some? && f.level > top then f.level else top
  }

  function LoadLevels(files: seq<File>): seq<seq<Loaded>> {
    seq(TopLevel(files) + 1, l requires 0 <= l => OnDisk(files, l))
  }

  function RemoveFile(files: seq<File>, id: nat): seq<File> {
    if files == [] then []
    else
      var f := files[|files| - 1];
      var rest := RemoveFile(files[..|files| - 1], id);
      if f.id == id then rest else rest + [f]
  }

  /** One source of a compaction folded into the merge map. */
  ghost function MergeTable(acc: TableMap, t: TableMap): TableMap {
    map k | k in acc.Keys + t.Keys ::
      if k !in t then acc[k] else if k !in acc then t[k] else Newer(acc[k], t[k])
  }

  ghost function MergeAll(ts: seq<Loaded>): TableMap {
    if ts == [] then map[] else MergeTable(MergeAll(ts[..|ts| - 1]), ts[|ts| - 1].content)
  }

  /** replayWAL: records whose value does not decode are skipped. */
  ghost function ReplayMem(c: Codec, es: seq<Wal.WalEntry>): TableMap {
    if es == [] then map[]
    else
      var r := es[|es| - 1];
      var m := ReplayMem(c, es[..|es| - 1]);
      if c.dec(r.val).None? then m else PutMem(m, r.key, c.dec(r.val).value)
  }

  function Widen(levels: seq<seq<Loaded>>, n: nat): (r: seq<seq<Loaded>>)
    ensures |r| >= n && |r| >= |levels|
    ensures forall l :: 0 <= l < |r| ==> r[l] == if l < |levels| then levels[l] else []
  {
    seq(if |levels| < n then n else |levels|, l requires 0 <= l => if l < |levels| then levels[l] else [])
  }

  // ----- reads ------------------------------------------------------------------

  ghost function Lookup(m: TableMap, k: Key): Option<StatEntry> {
    if k in m then Some(m[k]) else None
  }

  /** Tables of one level, newest first; levels above zero stop at the first hit. */
  ghost function ReadTables(ts: seq<Loaded>, n: nat, k: Key, firstHit: bool, best: Option<StatEntry>): Option<StatEntry>
    requires n <= |ts|
  {
    if n == 0 then best
    else if k !in ts[n - 1].content then ReadTables(ts, n - 1, k, firstHit, best)
    else
      var best' := PickNewer(best, Some(ts[n - 1].content[k]));
      if firstHit then best' else ReadTables(ts, n - 1, k, firstHit, best')
  }

  ghost function ReadLevels(levels: seq<seq<Loaded>>, l: nat, k: Key, best: Option<StatEntry>): Option<StatEntry>
    requires l <= |levels|
    decreases |levels| - l
  {
    if l == |levels| then best
    else ReadLevels(levels, l + 1, k, ReadTables(levels[l], |levels[l]|, k, l > 0, best))
  }

  ghost function ReadMem(s: State, k: Key): Option<StatEntry> {
    var best := PickNewer(None, Lookup(s.mem, k));
    if s.imm.None? then best else PickNewer(best, Lookup(s.imm.value, k))
  }

  ghost function ReadStores(s: State, k: Key): Option<StatEntry> {
    ReadLevels(s.levels, 0, k, ReadMem(s, k))
  }

  /** LSMTree.Read: the block cache first, then memtable, immutable memtable and tables. */
  ghost function Read(s: State, k: Key): Option<StatEntry> {
    if k in s.cache then Some(s.cache[k]) else ReadStores(s, k)
  }

  // ----- steps ------------------------------------------------------------------

  function DataRecord(c: Codec, e: StatEntry, seqNum: nat): Wal.Record {
    Wal.Record(seqNum, Wal.PENDING, EntryKey(e), c.enc(e))
  }

  function Marker(seqNum: nat): Wal.Record {
    Wal.Record(seqNum, Wal.COMMITTED, [], [])
  }

  ghost predicate Enabled(c: Codec, s: State, step: Step) {
    match step
    case BeginAppend(e, n) => s.phase.Idle? && Admissible(c, e) && n < U64_LIMIT
    case SyncLog => s.phase.Appending?
    case ApplyMem => s.phase.Logged?
    case WriteMarker(n) => s.phase.Applied? && n < U64_LIMIT
    case Invalidate => s.phase.Marked?
    case BeginFlush => s.phase.Idle? && s.mem != map[]
    case FinishFlush => s.phase.Flushing? && s.imm.Some? && s.files != [] && s.levels != []
    case Rotate => s.phase.Flushed?
    case BeginCompact(l) => s.phase.Idle? && l < |s.levels|
    case FinishCompact => s.phase.Compacting? && s.files != [] && s.phase.level + 1 < |s.levels|
    case DeleteSource => s.phase.Deleting? && s.phase.upper + s.phase.lower != []
    case SwapLevels => s.phase.Deleting? && s.phase.upper + s.phase.lower == [] && s.phase.level + 1 < |s.levels|
    case CacheFill(k, _) => s.phase.Idle? && ReadStores(s, k).Some?
    case Crash(cut) => s.intact && s.synced <= cut <= |s.log|
  }

  /** Which entries are logged after a crash: an append in flight may or may not have made it. */
  ghost function Survivors(c: Codec, s: State, cut: nat): set<StatEntry>
    requires cut <= |s.log|
  {
    if s.phase.Appending? && Wal.Has(s.log[..cut], EntryKey(s.phase.e), c.enc(s.phase.e))
    then s.live + {s.phase.e} else s.live
  }

  ghost function Apply(c: Codec, s: State, step: Step): State
    requires Enabled(c, s, step)
  {
    match step
    case BeginAppend(e, n) =>
      s.(log := s.log + Wal.Encode(DataRecord(c, e, n)), intact := s.intact && Wal.Whole(s.log),
         written := s.written + {e}, phase := Appending(e))
    case SyncLog =>
      s.(synced := |s.log|, live := s.live + {s.phase.e}, phase := Logged(s.phase.e))
    case ApplyMem =>
      s.(mem := PutMem(s.mem, EntryKey(s.phase.e), s.phase.e), phase := Applied(s.phase.e))
    case WriteMarker(n) =>
      s.(log := s.log + Wal.Encode(Marker(n)), phase := Marked(s.phase.e))
    case Invalidate =>
      s.(cache := s.cache - {EntryKey(s.phase.e)}, phase := Idle)
    case BeginFlush =>
      s.(imm := Some(s.mem), mem := map[], files := s.files + [File(0, s.nextId, None)],
         nextId := s.nextId + 1, phase := Flushing(s.nextId))
    case FinishFlush =>
      s.(files := s.files[..|s.files| - 1] + [File(0, s.phase.id, s.imm)],
         levels := s.levels[0 := s.levels[0] + [Loaded(s.phase.id, s.imm.value)]],
         imm := None, phase := Flushed)
    case Rotate =>
      s.(log := [], synced := 0, intact := true, phase := Idle)
    case BeginCompact(l) =>
      s.(levels := Widen(s.levels, l + 2), files := s.files + [File(l + 1, s.nextId, None)],
         nextId := s.nextId + 1, phase := Compacting(l, s.nextId))
    case FinishCompact =>
      var l := s.phase.level;
      var merged := Loaded(s.phase.id, MergeAll(s.levels[l] + s.levels[l + 1]));
      s.(files := s.files[..|s.files| - 1] + [File(l + 1, merged.id, Some(merged.content))],
         phase := Deleting(l, merged, s.levels[l], s.levels[l + 1]))
    case DeleteSource =>
      if s.phase.upper != [] then
        s.(files := RemoveFile(s.files, s.phase.upper[0].id), phase := s.phase.(upper := s.phase.upper[1..]))
      else
        s.(files := RemoveFile(s.files, s.phase.lower[0].id), phase := s.phase.(lower := s.phase.lower[1..]))
    case SwapLevels =>
      s.(levels := s.levels[s.phase.level := []][s.phase.level + 1 := [s.phase.merged]], phase := Idle)
    case CacheFill(k, evicted) =>
      s.(cache := s.cache[k := ReadStores(s, k).value] - evicted)
    case Crash(cut) =>
      s.(mem := ReplayMem(c, Wal.Replayed(s.log[..cut])), imm := None, levels := LoadLevels(s.files),
         cache := map[], log := s.log[..cut], synced := cut, phase := Idle, live := Survivors(c, s, cut))
  }

  const Init: State := State(map[], None, [[]], map[], [], [], 0, 0, Idle, true, {}, {})

  /** The state a run leads to, if each of its steps was enabled when taken. */
  ghost function Exec(c: Codec, run: seq<Step>): Option<State> {
    if run == [] then Some(Init)
    else
      var before := Exec(c, run[..|run| - 1]);
      if before.Some? && Enabled(c, before.value, run[|run| - 1])
      then Some(Apply(c, before.value, run[|run| - 1]))
      else None
  }

  // ----- the invariant ----------------------------------------------------------

  ghost predicate Keyed(m: TableMap, live: set<StatEntry>) {
    forall k <- m.Keys :: EntryKey(m[k]) == k && m[k] in live
  }

  ghost predicate AllKeyed(ts: seq<Loaded>, live: set<StatEntry>) {
    forall i :: 0 <= i < |ts| ==> Keyed(ts[i].content, live)
  }

  ghost predicate Holds(m: TableMap, h: StatEntry) {
    EntryKey(h) in m && AtLeast(m[EntryKey(h)], h)
  }

  ghost predicate SomeHolds(ts: seq<Loaded>, h: StatEntry) {
    exists i :: 0 <= i < |ts| && Holds(ts[i].content, h)
  }

  /** `newer` has every key of `older`, at no smaller rank. */
  ghost predicate Above(newer: TableMap, older: TableMap) {
    forall k <- older.Keys :: k in newer && AtLeast(newer[k], older[k])
  }

  /** Within a level above zero, later tables supersede earlier ones. */
  ghost predicate Stacked(ts: seq<Loaded>) {
    forall i, j :: 0 <= i < j < |ts| ==> Above(ts[j].content, ts[i].content)
  }

  ghost predicate LevelHolds(levels: seq<seq<Loaded>>, l: nat, h: StatEntry) {
    l < |levels| && SomeHolds(levels[l], h)
  }

  ghost predicate MemHolds(mem: TableMap, imm: Option<TableMap>, levels: seq<seq<Loaded>>, h: StatEntry) {
    Holds(mem, h) || (imm.Some? && Holds(imm.value, h)) || exists l: nat :: LevelHolds(levels, l, h)
  }

  ghost predicate DiskHolds(files: seq<File>, h: StatEntry) {
    exists l: nat :: SomeHolds(OnDisk(files, l), h)
  }

  ghost predicate EntriesOk(c: Codec, written: set<StatEntry>, live: set<StatEntry>) {
    (forall e <- written :: Admissible(c, e)) && live <= written
  }

  ghost predicate MemOk(mem: TableMap, imm: Option<TableMap>, live: set<StatEntry>) {
    Keyed(mem, live) && (imm.Some? ==> Keyed(imm.value, live))
  }

  /** Tables hold logged entries under their own keys, and levels above zero are stacked. */
  ghost predicate LevelOk(ts: seq<Loaded>, l: nat, live: set<StatEntry>) {
    AllKeyed(ts, live) && (l > 0 ==> Stacked(ts))
  }

  ghost predicate TablesOk(levels: seq<seq<Loaded>>, files: seq<File>, live: set<StatEntry>) {
    && (forall l: nat :: l < |levels| ==> LevelOk(levels[l], l, live))
    && (forall l: nat :: LevelOk(OnDisk(files, l), l, live))
  }

  ghost predicate Names(files: seq<File>, nextId: nat) {
    && (forall i, j :: 0 <= i < j < |files| ==> files[i].id < files[j].id)
    && (forall i :: 0 <= i < |files| ==> files[i].id < nextId)
  }

  ghost predicate LevelMatches(files: seq<File>, levels: seq<seq<Loaded>>, l: nat) {
    OnDisk(files, l) == if l < |levels| then levels[l] else []
  }

  ghost predicate AboveAll(m: TableMap, ts: seq<Loaded>) {
    forall i :: 0 <= i < |ts| ==> Above(m, ts[i].content)
  }

  /** How the open tables relate to the files, phase by phase. */
  ghost predicate Matches(s: State) {
    && s.levels != []
    && match s.phase
       case Flushing(id) =>
         && (forall l: nat :: LevelMatches(s.files, s.levels, l))
         && s.mem == map[] && s.imm.Some?
         && s.files != [] && s.files[|s.files| - 1] == File(0, id, None)
       case Compacting(level, id) =>
         && (forall l: nat :: LevelMatches(s.files, s.levels, l))
         && s.imm.None? && level + 1 < |s.levels|
         && s.files != [] && s.files[|s.files| - 1] == File(level + 1, id, None)
       case Deleting(level, merged, upper, lower) =>
         && s.imm.None? && level + 1 < |s.levels|
         && (forall l: nat :: l != level && l != level + 1 ==> LevelMatches(s.files, s.levels, l))
         && OnDisk(s.files, level) == upper && OnDisk(s.files, level + 1) == lower + [merged]
         && AboveAll(merged.content, s.levels[level]) && AboveAll(merged.content, s.levels[level + 1])
         && AboveAll(merged.content, upper) && AboveAll(merged.content, lower)
       case Flushed =>
         (forall l: nat :: LevelMatches(s.files, s.levels, l)) && s.imm.None? && s.mem == map[]
       case _ =>
         (forall l: nat :: LevelMatches(s.files, s.levels, l)) && s.imm.None?
  }

  /** Everything logged can be read back from memory. */
  ghost predicate Reflected(s: State) {
    forall h <- s.live :: s.phase == Logged(h) || MemHolds(s.mem, s.imm, s.levels, h)
  }

  /** Everything logged can be read back from disk after a crash now. */
  ghost predicate Durable(c: Codec, s: State) {
    s.intact ==>
      && s.synced <= |s.log|
      && (s.phase.Appending? || s.phase.Logged? || s.phase.Applied? ==> Wal.Whole(s.log))
      && (s.phase.Appending? ==> Wal.Has(s.log, EntryKey(s.phase.e), c.enc(s.phase.e)))
      && (forall key, val :: Wal.Has(s.log, key, val) ==> Genuine(c, Known(s), key, val))
      && (forall h <- s.live :: DiskHolds(s.files, h) || Wal.Has(s.log[..s.synced], EntryKey(h), c.enc(h)))
  }

  /** The logged entries, and the one whose record is being appended. */
  ghost function Known(s: State): set<StatEntry> {
    if s.phase.Appending? then s.live + {s.phase.e} else s.live
  }

  /** A log record written for one of these entries. */
  ghost predicate Genuine(c: Codec, known: set<StatEntry>, key: Bytes, val: Bytes) {
    exists e <- known :: EntryKey(e) == key && c.enc(e) == val
  }

  ghost predicate Pending(s: State, k: Key) {
    (s.phase.Logged? || s.phase.Applied? || s.phase.Marked?) && EntryKey(s.phase.e) == k
  }

  /** The cache holds a best entry for each of its keys, except one being written. */
  ghost predicate CacheFresh(s: State) {
    forall k <- s.cache.Keys ::
      && EntryKey(s.cache[k]) == k && s.cache[k] in s.live
      && (Pending(s, k) || forall h <- s.live :: EntryKey(h) == k ==> AtLeast(s.cache[k], h))
  }

  ghost predicate Inv(c: Codec, s: State) {
    && EntriesOk(c, s.written, s.live) && MemOk(s.mem, s.imm, s.live) && TablesOk(s.levels, s.files, s.live)
    && Names(s.files, s.nextId) && Matches(s)
    && Reflected(s) && Durable(c, s) && CacheFresh(s)
    && (s.phase.Appending? || s.phase.Logged? || s.phase.Applied? || s.phase.Marked? ==> s.phase.e in s.written)
    && (s.phase.Logged? || s.phase.Applied? || s.phase.Marked? ==> s.phase.e in s.live)
  }

  // ----- lemmas about the building blocks -----------------------------------------

  lemma {:induction false} HoldsAbove(newer: TableMap, older: TableMap, h: StatEntry)
    requires Above(newer, older) && Holds(older, h)
    ensures Holds(newer, h)
  {}

  lemma {:induction false} PutKeeps(m: TableMap, e: StatEntry, live: set<StatEntry>, h: StatEntry)
    requires Keyed(m, live) && e in live && (forall x <- live :: Sane(x))
    ensures Keyed(PutMem(m, EntryKey(e), e), live)
    ensures Holds(PutMem(m, EntryKey(e), e), e)
    ensures Holds(m, h) ==> Holds(PutMem(m, EntryKey(e), e), h)
  {
    var k := EntryKey(e);
    if k in m {
      assert Sane(m[k]) && Sane(e);
      NewerBeatsBoth(m[k], e);
    }
  }

  lemma {:induction false} AboveTrans(a: TableMap, b: TableMap, c: TableMap)
    requires Above(a, b) && Above(b, c)
    ensures Above(a, c)
  {}

  lemma {:induction false} MergeTableAbove(acc: TableMap, t: TableMap, live: set<StatEntry>)
    requires Keyed(acc, live) && Keyed(t, live) && (forall x <- live :: Sane(x))
    ensures Keyed(MergeTable(acc, t), live) && Above(MergeTable(acc, t), acc) && Above(MergeTable(acc, t), t)
  {
    hide Newer, NonNegative, EntryKey;
    forall k | k in acc && k in t
      ensures AtLeast(Newer(acc[k], t[k]), acc[k]) && AtLeast(Newer(acc[k], t[k]), t[k])
      ensures Newer(acc[k], t[k]) == acc[k] || Newer(acc[k], t[k]) == t[k]
    {
      assert Sane(acc[k]) && Sane(t[k]);
      NewerBeatsBoth(acc[k], t[k]);
    }
  }

  lemma {:induction false} MergeDominates(ts: seq<Loaded>, live: set<StatEntry>)
    requires AllKeyed(ts, live) && (forall x <- live :: Sane(x))
    ensures Keyed(MergeAll(ts), live) && AboveAll(MergeAll(ts), ts)
  {
    hide MergeTable, Keyed, Above, Sane;
    if ts == [] {
      EmptyKeyed(live);
    } else {
      var n := |ts| - 1;
      var init, t := ts[..n], ts[n].content;
      MergeDominates(init, live);
      var acc := MergeAll(init);
      MergeTableAbove(acc, t, live);
      forall i | 0 <= i < |ts| ensures Above(MergeAll(ts), ts[i].content) {
        if i < n {
          assert Above(acc, init[i].content);
          AboveTrans(MergeAll(ts), acc, init[i].content);
        }
      }
    }
  }

  lemma {:induction false} EmptyKeyed(live: set<StatEntry>)
    ensures Keyed(map[], live)
  {}

  lemma {:induction false} OnDiskSnoc(files: seq<File>, f: File, l: nat)
    ensures OnDisk(files + [f], l) ==
      OnDisk(files, l) + if f.level == l && f.content.Some? then [Loaded(f.id, f.content.value)] else []
  {
    assert (files + [f])[..|files|] == files;
  }

  /** Completing the last file adds its table to its level and changes no other. */
  lemma {:induction false} OnDiskComplete(files: seq<File>, f: File, l: nat)
    requires files != [] && files[|files| - 1].content.None? && f.content.Some?
    ensures OnDisk(files[..|files| - 1] + [f], l) ==
      OnDisk(files, l) + if f.level == l then [Loaded(f.id, f.content.value)] else []
  {
    OnDiskSnoc(files[..|files| - 1], f, l);
  }

  lemma {:induction false} OnDiskIds(files: seq<File>, l: nat, nextId: nat)
    requires Names(files, nextId)
    ensures forall i, j :: 0 <= i < j < |OnDisk(files, l)| ==> OnDisk(files, l)[i].id < OnDisk(files, l)[j].id
    ensures forall i :: 0 <= i < |OnDisk(files, l)| ==> OnDisk(files, l)[i].id < nextId
  {
    if files != [] {
      OnDiskIds(files[..|files| - 1], l, files[|files| - 1].id);
    }
  }

  /** A file number occurs in only one level. */
  lemma {:induction false} OnDiskLevelUnique(files: seq<File>, l: nat, m: nat, nextId: nat)
    requires Names(files, nextId) && l != m
    ensures forall i, j :: 0 <= i < |OnDisk(files, l)| && 0 <= j < |OnDisk(files, m)| ==>
              OnDisk(files, l)[i].id != OnDisk(files, m)[j].id
  {
    if files != [] {
      var init, last := files[..|files| - 1], files[|files| - 1];
      OnDiskLevelUnique(init, l, m, last.id);
      OnDiskIds(init, l, last.id);
      OnDiskIds(init, m, last.id);
    }
  }

  lemma {:induction false} RemoveAbsent(files: seq<File>, id: nat, l: nat)
    requires forall i :: 0 <= i < |OnDisk(files, l)| ==> OnDisk(files, l)[i].id != id
    ensures OnDisk(RemoveFile(files, id), l) == OnDisk(files, l)
  {
    if files != [] {
      var init, last := files[..|files| - 1], files[|files| - 1];
      assert forall i :: 0 <= i < |OnDisk(init, l)| ==> OnDisk(init, l)[i] == OnDisk(files, l)[i];
      if last.level == l && last.content.Some? {
        assert OnDisk(files, l)[|OnDisk(init, l)|].id == last.id;
      }
      RemoveAbsent(init, id, l);
      if last.id != id { OnDiskSnoc(RemoveFile(init, id), last, l); }
    }
  }

  /** Deleting the oldest table of a level leaves the rest of that level in order. */
  lemma {:induction false} RemoveFirst(files: seq<File>, l: nat, nextId: nat)
    requires Names(files, nextId) && OnDisk(files, l) != []
    ensures OnDisk(RemoveFile(files, OnDisk(files, l)[0].id), l) == OnDisk(files, l)[1..]
  {
    var init, last := files[..|files| - 1], files[|files| - 1];
    var ts := OnDisk(init, l);
    var id := OnDisk(files, l)[0].id;
    if ts == [] {
      RemoveAbsent(init, id, l);
      assert last.id == id;
    } else {
      OnDiskIds(init, l, last.id);
      assert id == ts[0].id < last.id;
      RemoveFirst(init, l, last.id);
      hide OnDisk;
      OnDiskSnoc(init, last, l);
      assert files == init + [last];
      OnDiskSnoc(RemoveFile(init, id), last, l);
      assert forall x :: (ts + [x])[1..] == ts[1..] + [x];
    }
  }

  lemma {:induction false} RemoveNames(files: seq<File>, id: nat, nextId: nat)
    requires Names(files, nextId)
    ensures Names(RemoveFile(files, id), nextId)
    ensures files != [] ==> Names(RemoveFile(files[..|files| - 1], id), files[|files| - 1].id)
  {
    if files != [] {
      var init, last := files[..|files| - 1], files[|files| - 1];
      assert Names(init, last.id) && last.id < nextId;
      RemoveNames(init, id, last.id);
      NamesSnoc(RemoveFile(init, id), last, nextId);
    }
  }

  lemma {:induction false} NamesSnoc(files: seq<File>, f: File, nextId: nat)
    requires Names(files, f.id) && f.id < nextId
    ensures Names(files + [f], nextId) && Names(files, nextId)
  {}

  lemma {:induction false} AboveTopEmpty(files: seq<File>, l: nat)
    requires l > TopLevel(files)
    ensures OnDisk(files, l) == []
  {
    if files != [] { AboveTopEmpty(files[..|files| - 1], l); }
  }

  /** Replay rebuilds a memtable that holds every replayed entry. */
  lemma {:induction false} ReplayHolds(c: Codec, es: seq<Wal.WalEntry>, live: set<StatEntry>, h: StatEntry)
    requires forall x <- live :: Admissible(c, x)
    requires forall i :: 0 <= i < |es| ==> Genuine(c, live, es[i].key, es[i].val)
    ensures Keyed(ReplayMem(c, es), live)
    ensures h in live && (exists i :: 0 <= i < |es| && es[i].key == EntryKey(h) && es[i].val == c.enc(h)) ==> Holds(ReplayMem(c, es), h)
  {
    if es != [] {
      var n := |es| - 1;
      var init := es[..n];
      ReplayHolds(c, init, live, h);
      assert Genuine(c, live, es[n].key, es[n].val);
      var e :| e in live && EntryKey(e) == es[n].key && c.enc(e) == es[n].val;
      assert Admissible(c, e) && forall x <- live :: Sane(x);
      PutKeeps(ReplayMem(c, init), e, live, h);
      if i :| h in live && 0 <= i < |es| && es[i].key == EntryKey(h) && es[i].val == c.enc(h) {
        if i == n { assert Admissible(c, h); } else { assert init[i] == es[i]; }
      }
    }
  }
}
