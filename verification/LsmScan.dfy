/**
 Scans of the LSM tree (metastore/lsm.go): what a predicate scan returns compared with
 point reads of the same tree.
 */
module LsmScan {
  import opened BigEndian
  import opened VectorClock
  import opened StatKey
  import opened LsmMachine
  import opened LsmSafety

  // ----- scans ----------------------------------------------------------------------

  /** Every store a scan visits: memtable, immutable memtable, then all tables level by level. */
  function Sources(s: State): seq<Loaded> {
    [Loaded(0, s.mem)] + (if s.imm.Some? then [Loaded(0, s.imm.value)] else []) + Flatten(s.levels)
  }

  function Flatten(levels: seq<seq<Loaded>>): seq<Loaded> {
    if levels == [] then [] else Flatten(levels[..|levels| - 1]) + levels[|levels| - 1]
  }

  function Matching(t: Loaded, match_: StatEntry -> bool): Loaded {
    t.(content := map k | k in t.content && match_(t.content[k]) :: t.content[k])
  }

  function MatchingAll(ts: seq<Loaded>, match_: StatEntry -> bool): seq<Loaded> {
    seq(|ts|, i requires 0 <= i < |ts| => Matching(ts[i], match_))
  }

  /** LSMTree.Scan: the newest matching version of each key. */
  ghost function Scan(s: State, match_: StatEntry -> bool): TableMap {
    MergeAll(MatchingAll(Sources(s), match_))
  }

  lemma {:induction false} FlattenMembers(levels: seq<seq<Loaded>>, t: Loaded)
    ensures t in Flatten(levels) <==> exists l: nat :: l < |levels| && t in levels[l]
  {
    if levels != [] {
      var n := |levels| - 1;
      FlattenMembers(levels[..n], t);
      if l: nat :| l < |levels| && t in levels[l] { assert l < n ==> levels[..n][l] == levels[l]; }
    }
  }

  lemma {:induction false} SourcesKeyed(c: Codec, s: State)
    requires Inv(c, s)
    ensures AllKeyed(Sources(s), s.live)
  {
    hide Keyed, OnDisk, Durable, Matches, Reflected, CacheFresh, Flatten;
    var flat := Flatten(s.levels);
    forall i | 0 <= i < |flat| ensures Keyed(flat[i].content, s.live) {
      FlattenMembers(s.levels, flat[i]);
      var l: nat :| l < |s.levels| && flat[i] in s.levels[l];
      assert LevelOk(s.levels[l], l, s.live);
    }
  }

  /** Some copy of `k` among these stores is entry `e`. */
  ghost predicate Stored(ts: seq<Loaded>, k: Key, e: StatEntry) {
    exists i :: 0 <= i < |ts| && k in ts[i].content && ts[i].content[k] == e
  }

  lemma {:induction false} MergeFrom(ts: seq<Loaded>, live: set<StatEntry>, k: Key)
    requires AllKeyed(ts, live) && (forall x <- live :: Sane(x)) && k in MergeAll(ts)
    ensures Stored(ts, k, MergeAll(ts)[k])
  {
    hide AtLeast, Keyed, Sane, Newer;
    var n := |ts| - 1;
    var init := ts[..n];
    var acc, t := MergeAll(init), ts[n].content;
    if k in acc {
      MergeFrom(init, live, k);
      var i :| 0 <= i < |init| && k in init[i].content && init[i].content[k] == acc[k];
      assert ts[i] == init[i];
    }
    if k in acc && k in t { NewerIsOneOf(acc[k], t[k]); }
  }

  lemma {:induction false} NewerIsOneOf(a: StatEntry, b: StatEntry)
    ensures Newer(a, b) == a || Newer(a, b) == b
  {}

  lemma {:induction false} ScanFinds(c: Codec, s: State, match_: StatEntry -> bool, k: Key, e: StatEntry)
    requires Inv(c, s) && Stored(Sources(s), k, e) && match_(e)
    ensures k in Scan(s, match_) && AtLeast(Scan(s, match_)[k], e)
  {
    hide AtLeast, Sane, Durable, Matches, Reflected, CacheFresh, TablesOk, MemOk, MergeAll, Sources;
    var ts := Sources(s);
    var fs := MatchingAll(ts, match_);
    SourcesKeyed(c, s);
    assert forall x <- s.live :: Sane(x) by { AdmissibleSane(c, s); }
    MergeDominates(fs, s.live);
    var i :| 0 <= i < |ts| && k in ts[i].content && ts[i].content[k] == e;
    assert Above(MergeAll(fs), fs[i].content);
  }

  lemma {:induction false} ScanFound(c: Codec, s: State, match_: StatEntry -> bool, k: Key)
    requires Inv(c, s) && k in Scan(s, match_)
    ensures match_(Scan(s, match_)[k]) && Stored(Sources(s), k, Scan(s, match_)[k])
  {
    hide AtLeast, Sane, Durable, Matches, Reflected, CacheFresh, TablesOk, MemOk, MergeAll, Sources;
    var ts := Sources(s);
    var fs := MatchingAll(ts, match_);
    SourcesKeyed(c, s);
    MergeFrom(fs, s.live, k);
    var i :| 0 <= i < |fs| && k in fs[i].content && fs[i].content[k] == MergeAll(fs)[k];
    assert ts[i].content[k] == MergeAll(fs)[k];
  }

  /** A scan returns, for each key with a matching copy, a matching copy of maximal rank among
      the matching copies, and nothing else. */
  lemma {:induction false} ScanExact(c: Codec, s: State, match_: StatEntry -> bool, k: Key)
    requires Inv(c, s)
    ensures k in Scan(s, match_) <==> exists e :: Stored(Sources(s), k, e) && match_(e)
    ensures k in Scan(s, match_) ==>
      && match_(Scan(s, match_)[k]) && Stored(Sources(s), k, Scan(s, match_)[k])
      && forall e :: Stored(Sources(s), k, e) && match_(e) ==> AtLeast(Scan(s, match_)[k], e)
  {
    hide Inv, Stored, Sources, Scan, AtLeast;
    forall e | Stored(Sources(s), k, e) && match_(e) ensures k in Scan(s, match_) && AtLeast(Scan(s, match_)[k], e) {
      ScanFinds(c, s, match_, k, e);
    }
    if k in Scan(s, match_) { ScanFound(c, s, match_, k); }
  }

  lemma {:induction false} AdmissibleSane(c: Codec, s: State)
    requires EntriesOk(c, s.written, s.live)
    ensures forall x <- s.live :: Sane(x)
  {
    forall x | x in s.live ensures Sane(x) { assert Admissible(c, x); }
  }

  /** A copy of rank at least `h` lies in some visited store. */
  lemma {:induction false} StoredAbove(s: State, h: StatEntry) returns (e: StatEntry)
    requires MemHolds(s.mem, s.imm, s.levels, h)
    ensures Stored(Sources(s), EntryKey(h), e) && AtLeast(e, h)
  {
    hide AtLeast, Flatten, EntryKey;
    var k, ts := EntryKey(h), Sources(s);
    if Holds(s.mem, h) {
      e := s.mem[k];
      assert ts[0].content[k] == e;
    } else if s.imm.Some? && Holds(s.imm.value, h) {
      e := s.imm.value[k];
      assert ts[1].content[k] == e;
    } else {
      var l: nat :| LevelHolds(s.levels, l, h);
      var i :| 0 <= i < |s.levels[l]| && Holds(s.levels[l][i].content, h);
      e := s.levels[l][i].content[k];
      FlattenMembers(s.levels, s.levels[l][i]);
      assert s.levels[l][i] in ts;
    }
  }

  ghost predicate Uniform(match_: StatEntry -> bool, k: Key, live: set<StatEntry>) {
    forall a <- live, b <- live :: EntryKey(a) == k && EntryKey(b) == k ==> match_(a) == match_(b)
  }

  /** For predicates that judge all versions of a key alike, a scan lists exactly the keys whose
      read matches, each with an entry of the rank a read returns. */
  lemma {:induction false} ScanAgreesWithRead(c: Codec, s: State, match_: StatEntry -> bool, k: Key)
    requires Inv(c, s) && s.phase.Idle? && Uniform(match_, k, s.live)
    ensures k in Scan(s, match_) <==> Read(s, k).Some? && match_(Read(s, k).value)
    ensures k in Scan(s, match_) ==> SameRank(Scan(s, match_)[k], Read(s, k).value)
  {
    hide Durable, Matches, CacheFresh, TablesOk, MemOk, Scan, Read, Sources, AtLeast;
    ReadCorrect(c, s, k);
    ScanExact(c, s, match_, k);
    StoredAreLive(c, s, k);
    if Read(s, k).Some? {
      var r := Read(s, k).value;
      var e := StoredAbove(s, r);
      if k in Scan(s, match_) { RankEq(Scan(s, match_)[k], r, e); }
    }
  }

  lemma {:induction false} RankEq(a: StatEntry, b: StatEntry, e: StatEntry)
    requires AtLeast(b, a) && AtLeast(a, e) && AtLeast(e, b)
    ensures SameRank(a, b)
  {}

  lemma {:induction false} StoredAreLive(c: Codec, s: State, k: Key)
    requires Inv(c, s)
    ensures forall e :: Stored(Sources(s), k, e) ==> e in s.live && EntryKey(e) == k
  {
    hide Durable, Matches, Reflected, CacheFresh, TablesOk, MemOk, Sources;
    SourcesKeyed(c, s);
    forall e | Stored(Sources(s), k, e) ensures e in s.live && EntryKey(e) == k {
      var i :| 0 <= i < |Sources(s)| && k in Sources(s)[i].content && Sources(s)[i].content[k] == e;
      assert Keyed(Sources(s)[i].content, s.live);
    }
  }

  /** Without that condition, the scan is as fresh as a read exactly when a copy of the key of
      the read's rank matches; the entity-type filter, which is not part of the key, can miss it. */
  lemma {:induction false} ScanFreshIff(c: Codec, s: State, match_: StatEntry -> bool, k: Key)
    requires Inv(c, s) && s.phase.Idle? && Read(s, k).Some?
    ensures (k in Scan(s, match_) && SameRank(Scan(s, match_)[k], Read(s, k).value)) <==>
            exists e :: Stored(Sources(s), k, e) && match_(e) && SameRank(e, Read(s, k).value)
  {
    hide Durable, Matches, CacheFresh, TablesOk, MemOk, Scan, Read, Sources, Inv;
    ReadCorrect(c, s, k);
    ScanExact(c, s, match_, k);
    StoredAreLive(c, s, k);
  }

  /** A logged entry of the key that no other outranks. */
  ghost predicate Newest(e: StatEntry, k: Key, live: set<StatEntry>) {
    e in live && EntryKey(e) == k && forall x <- live :: EntryKey(x) == k ==> AtLeast(e, x)
  }

  /** In terms of what was written: the scan is as fresh as a read if every newest version of the
      key matches, and it is not if none does. A key with one newest version is thus scanned
      fresh exactly when that version matches. */
  lemma {:induction false} ScanFollowsNewest(c: Codec, s: State, match_: StatEntry -> bool, k: Key)
    requires Inv(c, s) && s.phase.Idle? && Read(s, k).Some?
    ensures var upToDate := k in Scan(s, match_) && SameRank(Scan(s, match_)[k], Read(s, k).value);
      && ((forall e | Newest(e, k, s.live) :: match_(e)) ==> upToDate)
      && ((forall e | Newest(e, k, s.live) :: !match_(e)) ==> !upToDate)
  {
    hide Scan, Read, Sources, Inv, AtLeast, Stored, EntryKey;
    ReadCorrect(c, s, k);
    ScanFreshIff(c, s, match_, k);
    StoredAreLive(c, s, k);
    var r := Read(s, k).value;
    assert Newest(r, k, s.live);
    forall e | Stored(Sources(s), k, e) && SameRank(e, r) ensures Newest(e, k, s.live) { RankOfNewest(e, r, k, s.live); }
    var e := NewestStored(c, s, k);
  }

  lemma {:induction false} RankOfNewest(e: StatEntry, r: StatEntry, k: Key, live: set<StatEntry>)
    requires Newest(r, k, live) && e in live && EntryKey(e) == k && SameRank(e, r)
    ensures Newest(e, k, live)
  {
    forall x | x in live && EntryKey(x) == k ensures AtLeast(e, x) { assert AtLeast(r, x); }
  }

  /** Some visited store holds a copy of the read's rank. */
  lemma {:induction false} NewestStored(c: Codec, s: State, k: Key) returns (e: StatEntry)
    requires Inv(c, s) && s.phase.Idle? && Read(s, k).Some?
    ensures Stored(Sources(s), k, e) && SameRank(e, Read(s, k).value)
  {
    hide Durable, Matches, CacheFresh, TablesOk, MemOk, Read, Sources, AtLeast;
    ReadCorrect(c, s, k);
    StoredAreLive(c, s, k);
    e := StoredAbove(s, Read(s, k).value);
    RankEq(e, Read(s, k).value, e);
  }
}
