/**
 Every step of the LSM machine keeps its invariant, so over every run, with crashes at any
 point, reads are correct and nothing logged is lost.
 */
module LsmSafety {
  import opened BigEndian
  import opened VectorClock
  import opened StatKey
  import opened LsmMachine
  import Wal

  // ----- writing ------------------------------------------------------------------

  /** More logged entries keep every store well keyed. */
  lemma {:induction false} LiveGrows(s: State, live: set<StatEntry>)
    requires MemOk(s.mem, s.imm, s.live) && TablesOk(s.levels, s.files, s.live) && s.live <= live
    ensures MemOk(s.mem, s.imm, live) && TablesOk(s.levels, s.files, live)
  {
    hide OnDisk, Above;
  }

  lemma {:induction false} BeginAppendKeeps(c: Codec, s: State, e: StatEntry, n: nat)
    requires Inv(c, s) && Enabled(c, s, BeginAppend(e, n))
    ensures Inv(c, Apply(c, s, BeginAppend(e, n)))
  {
    hide Wal.Has, Wal.Whole, Wal.Encode, MemOk, TablesOk, Names, LevelMatches, MemHolds, DiskHolds, AtLeast;
    var s' := Apply(c, s, BeginAppend(e, n));
    assert Durable(c, s') by {
      if s'.intact {
        var r := DataRecord(c, e, n);
        forall key, val ensures Wal.Has(s'.log, key, val) ==> Genuine(c, Known(s'), key, val) {
          Wal.HasAfterAppend(s.log, r, key, val);
          if Wal.Has(s.log, key, val) { assert Genuine(c, Known(s), key, val); }
        }
        Wal.HasAfterAppend(s.log, r, EntryKey(e), c.enc(e));
        assert s'.log[..s.synced] == s.log[..s.synced];
      }
    }
  }

  lemma {:induction false} SyncLogKeeps(c: Codec, s: State)
    requires Inv(c, s) && Enabled(c, s, SyncLog)
    ensures Inv(c, Apply(c, s, SyncLog))
  {
    hide Wal.Has, Wal.Whole, MemOk, TablesOk, Names, LevelMatches, MemHolds, DiskHolds, AtLeast;
    var s' := Apply(c, s, SyncLog);
    LiveGrows(s, s'.live);
    assert Durable(c, s') by {
      if s'.intact {
        assert s.log[..|s.log|] == s.log;
        forall h | h in s'.live ensures DiskHolds(s.files, h) || Wal.Has(s.log, EntryKey(h), c.enc(h)) {
          if h != s.phase.e && !DiskHolds(s.files, h) {
            Wal.HasAfterCut(s.log[..s.synced], s.log, EntryKey(h), c.enc(h));
          }
        }
      }
    }
  }

  lemma {:induction false} ApplyMemKeeps(c: Codec, s: State)
    requires Inv(c, s) && Enabled(c, s, ApplyMem)
    ensures Inv(c, Apply(c, s, ApplyMem))
  {
    hide Wal.Has, Wal.Whole, PutMem, Keyed, Holds, TablesOk, Names, LevelMatches, DiskHolds, AtLeast;
    var s' := Apply(c, s, ApplyMem);
    var e := s.phase.e;
    PutKeeps(s.mem, e, s.live, e);
    forall h | h in s'.live ensures MemHolds(s'.mem, s'.imm, s'.levels, h) {
      PutKeeps(s.mem, e, s.live, h);
    }
  }

  lemma {:induction false} WriteMarkerKeeps(c: Codec, s: State, n: nat)
    requires Inv(c, s) && Enabled(c, s, WriteMarker(n))
    ensures Inv(c, Apply(c, s, WriteMarker(n)))
  {
    hide Wal.Has, Wal.Whole, Wal.Encode, MemOk, TablesOk, Names, LevelMatches, MemHolds, DiskHolds, AtLeast;
    var s' := Apply(c, s, WriteMarker(n));
    assert Durable(c, s') by {
      if s'.intact {
        forall key, val ensures Wal.Has(s'.log, key, val) ==> Genuine(c, Known(s'), key, val) {
          Wal.HasAfterAppend(s.log, Marker(n), key, val);
        }
        assert s'.log[..s.synced] == s.log[..s.synced];
      }
    }
  }

  lemma {:induction false} CacheAfterInvalidate(s: State, s': State)
    requires s.phase.Marked? && CacheFresh(s) && s'.phase.Idle? && s'.live == s.live
    requires s'.cache == s.cache - {EntryKey(s.phase.e)}
    ensures CacheFresh(s')
  {
    hide AtLeast, EntryKey;
  }

  lemma {:induction false} InvalidateKeeps(c: Codec, s: State)
    requires Inv(c, s) && Enabled(c, s, Invalidate)
    ensures Inv(c, Apply(c, s, Invalidate))
  {
    hide Wal.Has, Wal.Whole, Wal.Encode, MemOk, TablesOk, Names, LevelMatches, MemHolds, DiskHolds, Genuine, CacheFresh;
    CacheAfterInvalidate(s, Apply(c, s, Invalidate));
  }

  // ----- flushing -----------------------------------------------------------------

  lemma {:induction false} NewFileKeeps(s: State, f: File)
    requires f.content.None?
    ensures TablesOk(s.levels, s.files, s.live) ==> TablesOk(s.levels, s.files + [f], s.live)
    ensures forall l: nat :: LevelMatches(s.files, s.levels, l) ==> LevelMatches(s.files + [f], s.levels, l)
    ensures forall h :: DiskHolds(s.files, h) ==> DiskHolds(s.files + [f], h)
  {
    hide OnDisk, LevelOk, SomeHolds;
    forall l: nat ensures OnDisk(s.files + [f], l) == OnDisk(s.files, l) {
      OnDiskSnoc(s.files, f, l);
    }
  }

  lemma {:induction false} BeginFlushKeeps(c: Codec, s: State)
    requires Inv(c, s) && Enabled(c, s, BeginFlush)
    ensures Inv(c, Apply(c, s, BeginFlush))
  {
    hide Wal.Has, Wal.Whole, TablesOk, Keyed, Holds, LevelHolds, LevelMatches, DiskHolds, Genuine, AtLeast;
    var s' := Apply(c, s, BeginFlush);
    NewFileKeeps(s, File(0, s.nextId, None));
    assert MemOk(s'.mem, s'.imm, s'.live) by { EmptyKeyed(s.live); }
    assert Reflected(s');
  }

  /** A table added at the end of level `l`, in memory or on disk. */
  ghost function Added(ts: seq<Loaded>, at: nat, l: nat, t: Loaded): seq<Loaded> {
    if l == at then ts + [t] else ts
  }

  lemma {:induction false} SomeHoldsGrows(ts: seq<Loaded>, t: Loaded, h: StatEntry)
    ensures SomeHolds(ts, h) || Holds(t.content, h) ==> SomeHolds(ts + [t], h)
  {
    if i :| 0 <= i < |ts| && Holds(ts[i].content, h) { assert Holds((ts + [t])[i].content, h); }
    assert (ts + [t])[|ts|] == t;
  }

  /** Completing a table file keeps everything held on disk, and well-formed levels well formed. */
  lemma {:induction false} CompletedFile(files: seq<File>, f: File, live: set<StatEntry>)
    requires files != [] && files[|files| - 1].content.None? && f.content.Some?
    requires Keyed(f.content.value, live) && (f.level > 0 ==> AboveAll(f.content.value, OnDisk(files, f.level)))
    requires forall l: nat :: LevelOk(OnDisk(files, l), l, live)
    ensures var files' := files[..|files| - 1] + [f];
      && (forall l: nat :: OnDisk(files', l) == Added(OnDisk(files, l), f.level, l, Loaded(f.id, f.content.value)))
      && (forall l: nat :: LevelOk(OnDisk(files', l), l, live))
      && (forall h :: DiskHolds(files, h) ==> DiskHolds(files', h))
  {
    hide OnDisk, Keyed, Above;
    var t := Loaded(f.id, f.content.value);
    var files' := files[..|files| - 1] + [f];
    forall l: nat ensures OnDisk(files', l) == Added(OnDisk(files, l), f.level, l, t) { OnDiskComplete(files, f, l); }
    forall l: nat ensures LevelOk(OnDisk(files', l), l, live) { assert LevelOk(OnDisk(files, l), l, live); }
    hide Holds, LevelOk;
    forall h | DiskHolds(files, h) ensures DiskHolds(files', h) {
      var l: nat :| SomeHolds(OnDisk(files, l), h);
      SomeHoldsGrows(OnDisk(files, l), t, h);
      assert SomeHolds(OnDisk(files', l), h);
    }
  }

  lemma {:induction false} FinishFlushKeeps(c: Codec, s: State)
    requires Inv(c, s) && Enabled(c, s, FinishFlush)
    ensures Inv(c, Apply(c, s, FinishFlush))
  {
    hide Wal.Has, Wal.Whole, OnDisk, Keyed, Holds, DiskHolds, Genuine, AtLeast, LevelOk, SomeHolds;
    var s' := Apply(c, s, FinishFlush);
    var t := Loaded(s.phase.id, s.imm.value);
    CompletedFile(s.files, File(0, t.id, s.imm), s.live);
    assert MemOk(s'.mem, s'.imm, s'.live) by { EmptyKeyed(s.live); }
    forall l: nat ensures LevelMatches(s'.files, s'.levels, l) { assert LevelMatches(s.files, s.levels, l); }
    assert TablesOk(s'.levels, s'.files, s'.live) by {
      forall l: nat | l < |s'.levels| ensures LevelOk(s'.levels[l], l, s.live) {
        assert LevelMatches(s'.files, s'.levels, l);
      }
    }
    forall h | h in s.live ensures MemHolds(s'.mem, s'.imm, s'.levels, h) {
      FlushedHolds(s, s', t, h);
    }
  }

  lemma {:induction false} FlushedHolds(s: State, s': State, t: Loaded, h: StatEntry)
    requires s.levels != [] && s.imm == Some(t.content) && s.mem == map[] && s'.levels == s.levels[0 := s.levels[0] + [t]]
    requires MemHolds(s.mem, s.imm, s.levels, h)
    ensures MemHolds(s'.mem, s'.imm, s'.levels, h)
  {
    hide AtLeast;
    SomeHoldsGrows(s.levels[0], t, h);
    if Holds(t.content, h) {
      assert LevelHolds(s'.levels, 0, h);
    } else {
      var l: nat :| LevelHolds(s.levels, l, h);
      assert LevelHolds(s'.levels, l, h);
    }
  }

  lemma {:induction false} RotateKeeps(c: Codec, s: State)
    requires Inv(c, s) && Enabled(c, s, Rotate)
    ensures Inv(c, Apply(c, s, Rotate))
  {
    EmptyLogHasNothing();
    hide OnDisk, Wal.Has, Wal.Whole, MemOk, TablesOk, Names, SomeHolds, AtLeast;
    var s' := Apply(c, s, Rotate);
    forall h | h in s'.live ensures DiskHolds(s'.files, h) {
      var l: nat :| LevelHolds(s.levels, l, h);
      assert LevelMatches(s.files, s.levels, l);
    }
  }

  lemma {:induction false} EmptyLogHasNothing()
    ensures forall key, val :: !Wal.Has([], key, val)
  {}

  // ----- compacting ---------------------------------------------------------------

  lemma {:induction false} BeginCompactKeeps(c: Codec, s: State, level: nat)
    requires Inv(c, s) && Enabled(c, s, BeginCompact(level))
    ensures Inv(c, Apply(c, s, BeginCompact(level)))
  {
    hide Wal.Has, Wal.Whole, OnDisk, MemOk, Holds, SomeHolds, LevelOk, DiskHolds, Genuine, AtLeast;
    var s' := Apply(c, s, BeginCompact(level));
    NewFileKeeps(s, File(level + 1, s.nextId, None));
    assert TablesOk(s'.levels, s'.files, s'.live) by {
      forall l: nat | l < |s'.levels| ensures LevelOk(s'.levels[l], l, s.live) {
        assert LevelMatches(s.files, s.levels, l);
      }
    }
    forall l: nat ensures LevelMatches(s'.files, s'.levels, l) {
      assert LevelMatches(s'.files, s.levels, l) by { assert LevelMatches(s.files, s.levels, l); }
    }
    forall h | h in s'.live ensures MemHolds(s'.mem, s'.imm, s'.levels, h) {
      if l: nat :| LevelHolds(s.levels, l, h) { assert LevelHolds(s'.levels, l, h); }
    }
  }

  lemma {:induction false} AboveParts(m: TableMap, upper: seq<Loaded>, lower: seq<Loaded>)
    requires AboveAll(m, upper + lower)
    ensures AboveAll(m, upper) && AboveAll(m, lower)
  {
    hide Above;
    forall i | 0 <= i < |upper| ensures Above(m, upper[i].content) { assert (upper + lower)[i] == upper[i]; }
    forall i | 0 <= i < |lower| ensures Above(m, lower[i].content) { assert (upper + lower)[|upper| + i] == lower[i]; }
  }

  /** The completed file and the deletions to come fit the levels. */
  lemma {:induction false} FinishCompactMatches(c: Codec, s: State)
    requires Inv(c, s) && Enabled(c, s, FinishCompact)
    ensures var s' := Apply(c, s, FinishCompact);
      && Matches(s') && Names(s'.files, s'.nextId) && TablesOk(s'.levels, s'.files, s'.live)
      && (forall h :: DiskHolds(s.files, h) ==> DiskHolds(s'.files, h))
  {
    hide Wal.Has, Wal.Whole, OnDisk, MergeAll, MemOk, MemHolds, DiskHolds, Genuine, AtLeast, Stacked, AboveAll, Keyed, Durable, CacheFresh, Reflected;
    var s' := Apply(c, s, FinishCompact);
    var level, t := s.phase.level, s'.phase.merged;
    var upper, lower := s.levels[level], s.levels[level + 1];
    assert LevelOk(upper, level, s.live) && LevelOk(lower, level + 1, s.live);
    MergeDominates(upper + lower, s.live);
    AboveParts(t.content, upper, lower);
    assert LevelMatches(s.files, s.levels, level) && LevelMatches(s.files, s.levels, level + 1);
    hide LevelOk, AllKeyed;
    CompletedFile(s.files, File(level + 1, t.id, Some(t.content)), s.live);
    forall l: nat | l != level && l != level + 1 ensures LevelMatches(s'.files, s'.levels, l) {
      assert LevelMatches(s.files, s.levels, l);
    }
  }

  lemma {:induction false} FinishCompactKeeps(c: Codec, s: State)
    requires Inv(c, s) && Enabled(c, s, FinishCompact)
    ensures Inv(c, Apply(c, s, FinishCompact))
  {
    hide Wal.Has, Wal.Whole, OnDisk, MergeAll, MemOk, MemHolds, DiskHolds, Genuine, AtLeast, Matches, TablesOk;
    FinishCompactMatches(c, s);
  }

  /** Deleting a source loses nothing: the merged table holds whatever it held. */
  lemma {:induction false} DeleteSourceKeeps(c: Codec, s: State)
    requires Inv(c, s) && Enabled(c, s, DeleteSource)
    ensures Inv(c, Apply(c, s, DeleteSource))
  {
    hide OnDisk, RemoveFile, MemOk, TablesOk, Reflected, Durable, CacheFresh, AboveAll, LevelMatches, EntriesOk;
    var s' := Apply(c, s, DeleteSource);
    var p := s.phase;
    var at := if p.upper != [] then p.level else p.level + 1;
    var gone := if p.upper != [] then p.upper[0] else p.lower[0];
    assert OnDisk(s.files, at)[0] == gone;
    RemoveNames(s.files, gone.id, s.nextId);
    RemoveFirst(s.files, at, s.nextId);
    forall l: nat ensures OnDisk(s'.files, l) == if l == at then OnDisk(s.files, at)[1..] else OnDisk(s.files, l) {
      if l != at {
        OnDiskLevelUnique(s.files, l, at, s.nextId);
        RemoveAbsent(s.files, gone.id, l);
      }
    }
    DeletedKeeps(c, s, s', at, gone);
  }

  lemma {:induction false} TailKeeps(ts: seq<Loaded>, l: nat, live: set<StatEntry>)
    requires ts != [] && LevelOk(ts, l, live)
    ensures LevelOk(ts[1..], l, live)
  {}

  /** `s'` is `s` after its next compaction source, `gone` at level `at`, was deleted. */
  ghost predicate Deleted(s: State, s': State, at: nat, gone: Loaded) {
    && s.phase.Deleting? && s.phase.upper + s.phase.lower != []
    && at == (if s.phase.upper != [] then s.phase.level else s.phase.level + 1)
    && gone == (if s.phase.upper != [] then s.phase.upper[0] else s.phase.lower[0])
    && s' == s.(files := s'.files, phase := if s.phase.upper != [] then s.phase.(upper := s.phase.upper[1..])
                                                                   else s.phase.(lower := s.phase.lower[1..]))
    && OnDisk(s.files, at) != []
    && forall l: nat :: OnDisk(s'.files, l) == if l == at then OnDisk(s.files, at)[1..] else OnDisk(s.files, l)
  }

  lemma {:induction false} DeletedMatches(s: State, s': State, at: nat, gone: Loaded)
    requires Matches(s) && Deleted(s, s', at, gone)
    ensures Matches(s')
  {
    hide OnDisk, Above;
    var p := s.phase;
    forall l: nat | l != p.level && l != p.level + 1 ensures LevelMatches(s'.files, s'.levels, l) {
      assert LevelMatches(s.files, s.levels, l);
    }
    if p.upper == [] { assert (p.lower + [p.merged])[1..] == p.lower[1..] + [p.merged]; }
  }

  lemma {:induction false} DeletedTables(s: State, s': State, at: nat, gone: Loaded)
    requires TablesOk(s.levels, s.files, s.live) && Deleted(s, s', at, gone)
    ensures TablesOk(s'.levels, s'.files, s'.live)
  {
    hide OnDisk, LevelOk;
    TailKeeps(OnDisk(s.files, at), at, s.live);
  }

  lemma {:induction false} DeletedHolds(s: State, s': State, at: nat, gone: Loaded, h: StatEntry)
    requires Matches(s) && Deleted(s, s', at, gone) && DiskHolds(s.files, h)
    ensures DiskHolds(s'.files, h)
  {
    hide OnDisk, Holds;
    var p := s.phase;
    var l: nat :| SomeHolds(OnDisk(s.files, l), h);
    var ts := OnDisk(s.files, l);
    var i :| 0 <= i < |ts| && Holds(ts[i].content, h);
    if l != at {
      assert SomeHolds(OnDisk(s'.files, l), h);
    } else if i > 0 {
      assert OnDisk(s'.files, l)[i - 1] == ts[i];
      assert SomeHolds(OnDisk(s'.files, l), h);
    } else {
      HoldsAbove(p.merged.content, gone.content, h);
      var low := OnDisk(s'.files, p.level + 1);
      assert low[|low| - 1] == p.merged;
      assert SomeHolds(low, h);
    }
  }

  lemma {:induction false} DeletedKeeps(c: Codec, s: State, s': State, at: nat, gone: Loaded)
    requires Inv(c, s) && Deleted(s, s', at, gone) && Names(s'.files, s.nextId)
    ensures Inv(c, s')
  {
    DeletedMatches(s, s', at, gone);
    DeletedTables(s, s', at, gone);
    forall h | DiskHolds(s.files, h) ensures DiskHolds(s'.files, h) {
      DeletedHolds(s, s', at, gone, h);
    }
    hide Wal.Has, Wal.Whole, DiskHolds, MemHolds, MemOk, TablesOk, Matches, Names, Genuine, AtLeast;
    assert Durable(c, s');
  }

  lemma {:induction false} SwapLevelsKeeps(c: Codec, s: State)
    requires Inv(c, s) && Enabled(c, s, SwapLevels)
    ensures Inv(c, Apply(c, s, SwapLevels))
  {
    hide Wal.Has, Wal.Whole, OnDisk, MemOk, DiskHolds, Genuine, AtLeast, Above, LevelOk;
    var s' := Apply(c, s, SwapLevels);
    var p := s.phase;
    assert p.upper == [] && p.lower == [];
    forall l: nat ensures LevelMatches(s'.files, s'.levels, l) {
      if l != p.level && l != p.level + 1 { assert LevelMatches(s.files, s.levels, l); }
    }
    assert TablesOk(s'.levels, s'.files, s'.live) by {
      forall l: nat | l < |s'.levels| ensures LevelOk(s'.levels[l], l, s.live) {
        assert LevelMatches(s'.files, s'.levels, l);
      }
    }
    assert Reflected(s') by {
      forall h | h in s'.live ensures MemHolds(s'.mem, s'.imm, s'.levels, h) {
        if l: nat :| LevelHolds(s.levels, l, h) { SwappedHolds(s, s', l, h); }
      }
    }
  }

  lemma {:induction false} SwappedHolds(s: State, s': State, l: nat, h: StatEntry)
    requires s.phase.Deleting? && s.phase.level + 1 < |s.levels|
    requires AboveAll(s.phase.merged.content, s.levels[s.phase.level])
    requires AboveAll(s.phase.merged.content, s.levels[s.phase.level + 1])
    requires s'.levels == s.levels[s.phase.level := []][s.phase.level + 1 := [s.phase.merged]]
    requires LevelHolds(s.levels, l, h)
    ensures MemHolds(s'.mem, s'.imm, s'.levels, h)
  {
    var p := s.phase;
    if l == p.level || l == p.level + 1 {
      var i :| 0 <= i < |s.levels[l]| && Holds(s.levels[l][i].content, h);
      HoldsAbove(p.merged.content, s.levels[l][i].content, h);
      assert s'.levels[p.level + 1][0] == p.merged;
      assert LevelHolds(s'.levels, p.level + 1, h);
    } else {
      assert LevelHolds(s'.levels, l, h);
    }
  }

  // ----- reading ------------------------------------------------------------------

  /** A candidate answer for key `k`. */
  ghost predicate Candidate(best: Option<StatEntry>, k: Key, live: set<StatEntry>) {
    best.Some? ==> EntryKey(best.value) == k && best.value in live
  }

  ghost predicate Beats(best: Option<StatEntry>, h: StatEntry) {
    best.Some? && AtLeast(best.value, h)
  }

  lemma {:induction false} PickKeeps(best: Option<StatEntry>, e: StatEntry, k: Key, live: set<StatEntry>, h: StatEntry)
    requires Candidate(best, k, live) && EntryKey(e) == k && e in live
    requires forall x <- live :: Sane(x)
    ensures Candidate(PickNewer(best, Some(e)), k, live) && PickNewer(best, Some(e)).Some?
    ensures Beats(best, h) || AtLeast(e, h) ==> Beats(PickNewer(best, Some(e)), h)
  {
    if best.Some? {
      assert Sane(best.value) && Sane(e);
      NewerIsRankMax(best.value, e);
    }
  }

  /** Stopping at the first hit of a stacked level misses nothing. */
  lemma {:induction false} ReadTablesCorrect(ts: seq<Loaded>, n: nat, k: Key, firstHit: bool, best: Option<StatEntry>,
                                             live: set<StatEntry>, h: StatEntry)
    requires n <= |ts| && AllKeyed(ts, live) && (firstHit ==> Stacked(ts)) && (forall x <- live :: Sane(x))
    requires Candidate(best, k, live)
    ensures var r := ReadTables(ts, n, k, firstHit, best);
      && Candidate(r, k, live)
      && (Beats(best, h) ==> Beats(r, h))
      && (EntryKey(h) == k && (exists i :: 0 <= i < n && Holds(ts[i].content, h)) ==> Beats(r, h))
  {
    hide AtLeast;
    if n > 0 {
      var t := ts[n - 1].content;
      assert Keyed(t, live);
      if k !in t {
        ReadTablesCorrect(ts, n - 1, k, firstHit, best, live, h);
      } else {
        PickKeeps(best, t[k], k, live, h);
        if firstHit {
          forall i | 0 <= i < n - 1 && EntryKey(h) == k && Holds(ts[i].content, h) ensures AtLeast(t[k], h) {
            assert Above(t, ts[i].content);
            HoldsAbove(t, ts[i].content, h);
          }
        } else {
          ReadTablesCorrect(ts, n - 1, k, firstHit, PickNewer(best, Some(t[k])), live, h);
        }
      }
    }
  }

  lemma {:induction false} ReadLevelsCorrect(levels: seq<seq<Loaded>>, l: nat, k: Key, best: Option<StatEntry>,
                                             live: set<StatEntry>, h: StatEntry)
    requires l <= |levels| && (forall x <- live :: Sane(x))
    requires forall i: nat :: i < |levels| ==> AllKeyed(levels[i], live)
    requires forall i: nat :: 1 <= i < |levels| ==> Stacked(levels[i])
    requires Candidate(best, k, live)
    ensures var r := ReadLevels(levels, l, k, best);
      && Candidate(r, k, live)
      && (Beats(best, h) ==> Beats(r, h))
      && (EntryKey(h) == k && (exists i: nat :: l <= i && LevelHolds(levels, i, h)) ==> Beats(r, h))
    decreases |levels| - l
  {
    hide AtLeast, Holds, Stacked, AllKeyed, ReadTables;
    if l < |levels| {
      ReadTablesCorrect(levels[l], |levels[l]|, k, l > 0, best, live, h);
      ReadLevelsCorrect(levels, l + 1, k, ReadTables(levels[l], |levels[l]|, k, l > 0, best), live, h);
    }
  }

  lemma {:induction false} ReadMemCorrect(s: State, k: Key, h: StatEntry)
    requires Keyed(s.mem, s.live) && (s.imm.Some? ==> Keyed(s.imm.value, s.live)) && (forall x <- s.live :: Sane(x))
    ensures Candidate(ReadMem(s, k), k, s.live)
    ensures EntryKey(h) == k && (Holds(s.mem, h) || (s.imm.Some? && Holds(s.imm.value, h))) ==> Beats(ReadMem(s, k), h)
  {
    hide AtLeast;
    if k in s.mem { PickKeeps(None, s.mem[k], k, s.live, h); }
    if s.imm.Some? && k in s.imm.value { PickKeeps(PickNewer(None, Lookup(s.mem, k)), s.imm.value[k], k, s.live, h); }
  }

  /** Reading the stores yields a submitted entry of the key that ranks at least as high as
      every logged one. */
  lemma {:induction false} ReadStoresCorrect(c: Codec, s: State, k: Key, h: StatEntry)
    requires Inv(c, s) && s.phase.Idle?
    ensures Candidate(ReadStores(s, k), k, s.live)
    ensures h in s.live && EntryKey(h) == k ==> Beats(ReadStores(s, k), h)
  {
    hide AtLeast, Holds, ReadLevels, ReadMem, Keyed, Stacked, AllKeyed, OnDisk, Durable, CacheFresh, Matches;
    ReadMemCorrect(s, k, h);
    assert forall l: nat :: l < |s.levels| ==> LevelOk(s.levels[l], l, s.live);
    ReadLevelsCorrect(s.levels, 0, k, ReadMem(s, k), s.live, h);
  }

  lemma {:induction false} CacheFillKeeps(c: Codec, s: State, k: Key, evicted: set<Key>)
    requires Inv(c, s) && Enabled(c, s, CacheFill(k, evicted))
    ensures Inv(c, Apply(c, s, CacheFill(k, evicted)))
  {
    hide Wal.Has, Wal.Whole, ReadStores, AtLeast, MemOk, TablesOk, Names, LevelMatches, MemHolds, DiskHolds, Genuine;
    var e := ReadStores(s, k).value;
    ReadStoresCorrect(c, s, k, e);
    forall h | h in s.live && EntryKey(h) == k ensures AtLeast(e, h) {
      ReadStoresCorrect(c, s, k, h);
    }
  }

  // ----- crashing -----------------------------------------------------------------

  lemma {:induction false} CrashGenuine(c: Codec, s: State, cut: nat, key: Bytes, val: Bytes)
    requires cut <= |s.log| && s.intact && Durable(c, s) && Wal.Has(s.log[..cut], key, val)
    ensures Genuine(c, Survivors(c, s, cut), key, val)
  {
    hide Wal.Has, DiskHolds;
    Wal.HasAfterCut(s.log[..cut], s.log, key, val);
    var e :| e in Known(s) && EntryKey(e) == key && c.enc(e) == val;
    assert e in Survivors(c, s, cut);
  }

  lemma {:induction false} CrashMem(c: Codec, s: State, cut: nat, h: StatEntry)
    requires cut <= |s.log| && s.intact && Durable(c, s)
    requires forall x <- Survivors(c, s, cut) :: Admissible(c, x)
    ensures Keyed(ReplayMem(c, Wal.Replayed(s.log[..cut])), Survivors(c, s, cut))
    ensures h in Survivors(c, s, cut) && Wal.Has(s.log[..cut], EntryKey(h), c.enc(h)) ==>
      Holds(ReplayMem(c, Wal.Replayed(s.log[..cut])), h)
  {
    hide Wal.Has, Wal.Replayed, ReplayMem, Keyed, Holds, Genuine, Durable, Survivors;
    var file, live := s.log[..cut], Survivors(c, s, cut);
    var es := Wal.Replayed(file);
    forall i | 0 <= i < |es| ensures Genuine(c, live, es[i].key, es[i].val) {
      Wal.HasIffReplayed(file, es[i].key, es[i].val);
      CrashGenuine(c, s, cut, es[i].key, es[i].val);
    }
    ReplayHolds(c, es, live, h);
    Wal.HasIffReplayed(file, EntryKey(h), c.enc(h));
  }

  /** Whatever is logged after the crash is on disk and in the reopened tree. */
  lemma {:induction false} CrashReflects(c: Codec, s: State, cut: nat, h: StatEntry)
    requires s.synced <= cut <= |s.log| && s.intact && Durable(c, s)
    requires h in Survivors(c, s, cut) && forall x <- Survivors(c, s, cut) :: Admissible(c, x)
    ensures MemHolds(ReplayMem(c, Wal.Replayed(s.log[..cut])), None, LoadLevels(s.files), h)
    ensures DiskHolds(s.files, h) || Wal.Has(s.log[..cut], EntryKey(h), c.enc(h))
  {
    hide Wal.Has, Wal.Replayed, OnDisk, ReplayMem, Holds, TopLevel;
    if DiskHolds(s.files, h) {
      var l: nat :| SomeHolds(OnDisk(s.files, l), h);
      if l > TopLevel(s.files) { AboveTopEmpty(s.files, l); }
      assert LevelHolds(LoadLevels(s.files), l, h);
    } else {
      if h in s.live {
        Wal.HasAfterCut(s.log[..s.synced], s.log[..cut], EntryKey(h), c.enc(h));
      }
      CrashMem(c, s, cut, h);
    }
  }

  /** Reopening after a crash restores the invariant with nothing logged missing. */
  lemma {:induction false} CrashKeeps(c: Codec, s: State, cut: nat)
    requires Inv(c, s) && Enabled(c, s, Crash(cut))
    ensures Inv(c, Apply(c, s, Crash(cut)))
  {
    hide Wal.Has, Wal.Whole, Wal.Replayed, OnDisk, ReplayMem, TopLevel, Keyed, LevelOk, Genuine, DiskHolds, AtLeast, Holds;
    var s' := Apply(c, s, Crash(cut));
    CrashMem(c, s, cut, Probe(map[], 0));
    LiveGrows(s, s'.live);
    forall l: nat ensures LevelMatches(s'.files, s'.levels, l) {
      if l > TopLevel(s.files) { AboveTopEmpty(s.files, l); }
    }
    assert s'.log[..cut] == s'.log;
    forall h | h in s'.live
      ensures MemHolds(s'.mem, s'.imm, s'.levels, h)
      ensures DiskHolds(s.files, h) || Wal.Has(s'.log, EntryKey(h), c.enc(h))
    {
      CrashReflects(c, s, cut, h);
    }
    forall key, val ensures Wal.Has(s'.log, key, val) ==> Genuine(c, s'.live, key, val) {
      if Wal.Has(s'.log, key, val) { CrashGenuine(c, s, cut, key, val); }
    }
  }

  // ----- whole runs -----------------------------------------------------------------

  lemma {:induction false} StepKeeps(c: Codec, s: State, step: Step)
    requires Inv(c, s) && Enabled(c, s, step)
    ensures Inv(c, Apply(c, s, step))
  {
    hide Inv, Apply;
    match step
    case BeginAppend(e, n) => BeginAppendKeeps(c, s, e, n);
    case SyncLog => SyncLogKeeps(c, s);
    case ApplyMem => ApplyMemKeeps(c, s);
    case WriteMarker(n) => WriteMarkerKeeps(c, s, n);
    case Invalidate => InvalidateKeeps(c, s);
    case BeginFlush => BeginFlushKeeps(c, s);
    case FinishFlush => FinishFlushKeeps(c, s);
    case Rotate => RotateKeeps(c, s);
    case BeginCompact(l) => BeginCompactKeeps(c, s, l);
    case FinishCompact => FinishCompactKeeps(c, s);
    case DeleteSource => DeleteSourceKeeps(c, s);
    case SwapLevels => SwapLevelsKeeps(c, s);
    case CacheFill(k, evicted) => CacheFillKeeps(c, s, k, evicted);
    case Crash(cut) => CrashKeeps(c, s, cut);
  }

  lemma {:induction false} InitInv(c: Codec)
    ensures Inv(c, Init)
  {
    EmptyLogHasNothing();
  }

  /** Over every run, crashes included, the invariant holds. */
  lemma {:induction false} RunKeeps(c: Codec, run: seq<Step>)
    requires Exec(c, run).Some?
    ensures Inv(c, Exec(c, run).value)
  {
    hide Inv, Apply, Enabled;
    if run == [] {
      InitInv(c);
    } else {
      RunKeeps(c, run[..|run| - 1]);
      StepKeeps(c, Exec(c, run[..|run| - 1]).value, run[|run| - 1]);
    }
  }

  /** `r` is the right answer for key `k`: nothing if no such entry was logged, and otherwise
      one of the logged entries of that key of maximal rank. */
  ghost predicate Best(r: Option<StatEntry>, k: Key, logged: set<StatEntry>) {
    && (r.Some? <==> exists e <- logged :: EntryKey(e) == k)
    && (r.Some? ==> r.value in logged && EntryKey(r.value) == k)
    && (r.Some? ==> forall e <- logged :: EntryKey(e) == k ==> AtLeast(r.value, e))
  }

  lemma {:induction false} ReadCorrect(c: Codec, s: State, k: Key)
    requires Inv(c, s) && s.phase.Idle?
    ensures Best(Read(s, k), k, s.live)
  {
    hide ReadStores, AtLeast, TablesOk, MemOk, Durable, Matches, Reflected;
    if k !in s.cache {
      ReadStoresCorrect(c, s, k, Probe(map[], 0));
      forall h | h in s.live && EntryKey(h) == k ensures Beats(Read(s, k), h) {
        ReadStoresCorrect(c, s, k, h);
      }
    }
  }

  /** The read theorem: whenever the tree is idle, after any run with any crashes, a read
      returns a best logged entry of its key, whatever the cache, the Bloom filters and the
      first-hit rule did. */
  lemma {:induction false} ReadReturnsBest(c: Codec, run: seq<Step>, k: Key)
    requires Exec(c, run).Some? && Exec(c, run).value.phase.Idle?
    ensures Best(Read(Exec(c, run).value, k), k, Exec(c, run).value.live)
  {
    hide Inv, Apply, Enabled, Read, Best;
    RunKeeps(c, run);
    ReadCorrect(c, Exec(c, run).value, k);
  }

  ghost predicate CrashFree(run: seq<Step>) {
    forall step <- run :: !step.Crash?
  }

  /** Every submitted entry is logged, or is the one being appended. */
  ghost predicate AllLogged(s: State) {
    s.written == Known(s)
  }

  lemma {:induction false} StepLogs(c: Codec, s: State, step: Step)
    requires Enabled(c, s, step) && !step.Crash? && AllLogged(s)
    ensures AllLogged(Apply(c, s, step))
  {
    hide PutMem, RemoveFile, MergeAll, ReadStores, Widen, Wal.Encode, Wal.Whole;
  }

  /** Without crashes every submitted entry has been logged once the tree is idle. */
  lemma {:induction false} CrashFreeLogsAll(c: Codec, run: seq<Step>)
    requires Exec(c, run).Some? && CrashFree(run)
    ensures AllLogged(Exec(c, run).value)
  {
    hide Apply, Enabled;
    if run != [] {
      CrashFreeLogsAll(c, run[..|run| - 1]);
      StepLogs(c, Exec(c, run[..|run| - 1]).value, run[|run| - 1]);
    }
  }

  /** Crash-free runs: a key is found iff it was ever written, with a maximal-rank entry. */
  lemma {:induction false} ReadFindsBestEverWritten(c: Codec, run: seq<Step>, k: Key)
    requires Exec(c, run).Some? && CrashFree(run) && Exec(c, run).value.phase.Idle?
    ensures Best(Read(Exec(c, run).value, k), k, Exec(c, run).value.written)
  {
    hide Inv, Apply, Enabled, Read, Best;
    ReadReturnsBest(c, run, k);
    CrashFreeLogsAll(c, run);
  }

  /** A crash at any point of any run, cutting the log at any unsynced byte: after reopening,
      every key answers with a best entry among all logged before the crash and, at most,
      the one whose append was in flight. */
  lemma {:induction false} CrashRecovery(c: Codec, run: seq<Step>, cut: nat, k: Key)
    requires Exec(c, run).Some? && Enabled(c, Exec(c, run).value, Crash(cut))
    ensures var s, s' := Exec(c, run).value, Apply(c, Exec(c, run).value, Crash(cut));
      && s'.phase.Idle?
      && s.live <= s'.live <= s.live + (if s.phase.Appending? then {s.phase.e} else {})
      && Best(Read(s', k), k, s'.live)
  {
    hide Inv, Enabled, Read, Exec, Best;
    RunKeeps(c, run);
    CrashKeeps(c, Exec(c, run).value, cut);
    ReadCorrect(c, Apply(c, Exec(c, run).value, Crash(cut)), k);
  }
}
