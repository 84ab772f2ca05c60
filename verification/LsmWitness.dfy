/**
 The store's theorems are about something: with a concrete codec, every list of entries can be
 written, and the tree built on an empty directory answers with the newest of them.
 */
module LsmWitness {
  import opened BigEndian
  import opened VectorClock
  import opened StatKey
  import opened LsmMachine
  import opened LsmTornTail
  import LsmSafety
  import LsmTree
  import Bloom

  /** An entry told apart only by its sample size. */
  function Number(n: nat): (e: StatEntry) {
    Probe(map[], n)
  }

  /** A codec that carries exactly such entries with 64-bit sample sizes. */
  function NumberCodec(): Codec {
    Codec((e: StatEntry) => if e.sampleSize >= 0 then Put(e.sampleSize, 8) else [],
          (b: Bytes) => if |b| == 8 then Some(Number(Get(b))) else None)
  }

  lemma {:induction false} NumbersAreAdmissible(n: nat)
    requires n < U64_LIMIT
    ensures Admissible(NumberCodec(), Number(n)) && EntryKey(Number(n)) == EntryKey(Number(0))
  {
    GetPut64(n);
  }

  /** From every idle state that a run reaches, every admissible entry can be written. */
  lemma {:induction false} EveryWriteIsPossible(c: Codec, run: seq<Step>, e: StatEntry) returns (run': seq<Step>)
    requires Exec(c, run).Some? && Exec(c, run).value.phase.Idle? && Admissible(c, e) && LsmSafety.CrashFree(run)
    ensures run <= run' && LsmSafety.CrashFree(run') && Exec(c, run').Some? && Exec(c, run').value.phase.Idle?
    ensures Exec(c, run').value.live == Exec(c, run).value.live + {e}
  {
    hide Exec, Follows, Enabled, Apply, Wal.Encode, Wal.Whole;
    var steps := [BeginAppend(e, 1), SyncLog, ApplyMem, WriteMarker(1), Invalidate];
    var s' := WriteSteps(c, Exec(c, run).value, e);
    ExecFollows(c, run, steps);
    run' := run + steps;
  }

  /** Any numbers can be stored together, and a read then returns the largest of them. */
  lemma {:induction false} NumbersCanBeStored(ns: seq<nat>) returns (run: seq<Step>)
    requires forall i :: 0 <= i < |ns| ==> ns[i] < U64_LIMIT
    ensures LsmSafety.CrashFree(run) && Exec(NumberCodec(), run).Some? && Exec(NumberCodec(), run).value.phase.Idle?
    ensures Exec(NumberCodec(), run).value.live == Numbers(ns)
    ensures var r := Read(Exec(NumberCodec(), run).value, EntryKey(Number(0)));
      if ns == [] then r == None else exists n <- ns :: r == Some(Number(n)) && forall m <- ns :: m <= n
  {
    run := NumbersWritten(ns);
    NumbersMembers(ns);
    hide Exec, Numbers;
    var c := NumberCodec();
    LsmSafety.ReadReturnsBest(c, run, EntryKey(Number(0)));
    var s := Exec(c, run).value;
    var r := Read(s, EntryKey(Number(0)));
    forall n | n in ns ensures Number(n) in s.live && EntryKey(Number(n)) == EntryKey(Number(0)) {}
    if ns != [] {
      assert ns[0] in ns;
      var n :| n in ns && r == Some(Number(n));
      forall m | m in ns ensures m <= n { assert AtLeast(Number(n), Number(m)); }
    }
  }

  function Numbers(ns: seq<nat>): set<StatEntry> {
    if ns == [] then {} else Numbers(ns[..|ns| - 1]) + {Number(ns[|ns| - 1])}
  }

  lemma {:induction false} NumbersMembers(ns: seq<nat>)
    ensures forall n <- ns :: Number(n) in Numbers(ns)
    ensures forall e <- Numbers(ns) :: exists n <- ns :: e == Number(n)
  {
    if ns != [] {
      var k := |ns| - 1;
      NumbersMembers(ns[..k]);
      forall e | e in Numbers(ns) ensures exists n <- ns :: e == Number(n) {
        if e == Number(ns[k]) {
          assert ns[k] in ns;
        } else {
          var n :| n in ns[..k] && e == Number(n);
          assert n in ns;
        }
      }
    }
  }

  lemma {:induction false} NumbersWritten(ns: seq<nat>) returns (run: seq<Step>)
    requires forall i :: 0 <= i < |ns| ==> ns[i] < U64_LIMIT
    ensures LsmSafety.CrashFree(run) && Exec(NumberCodec(), run).Some? && Exec(NumberCodec(), run).value.phase.Idle?
    ensures Exec(NumberCodec(), run).value.live == Numbers(ns)
  {
    if ns == [] {
      run := [];
    } else {
      var k := |ns| - 1;
      assert ns[k] in ns;
      run := NumbersWritten(ns[..k]);
      hide Exec, LsmSafety.CrashFree, Admissible;
      NumbersAreAdmissible(ns[k]);
      run := EveryWriteIsPossible(NumberCodec(), run, Number(ns[k]));
    }
  }

  /** The crash of an untouched tree is an empty directory. */
  lemma {:induction false} EmptyStart(c: Codec, h: Bloom.Hashes)
    ensures Exec(c, []) == Some(Init) && Enabled(c, Init, Crash(0))
    ensures LsmTree.FilesFormed(c, h, []) && LsmTree.AbsFiles(c, []) == []
    ensures Exec(c, [] + [Crash(0)]).Some? && Exec(c, [] + [Crash(0)]).value.live == {}
  {
    Snoc(c, [], Crash(0));
  }

  /** A best answer among two numbers is the larger. */
  lemma {:induction false} BestOfTwo(r: Option<StatEntry>, n: nat, m: nat)
    requires n <= m && LsmSafety.Best(r, EntryKey(Number(0)), {} + {Number(m)} + {Number(n)})
    ensures r == Some(Number(m))
  {
    assert EntryKey(Number(m)) == EntryKey(Number(0)) && Number(m) in {} + {Number(m)} + {Number(n)};
    assert AtLeast(r.value, Number(m));
  }

  /** A tree on an empty directory takes writes and answers them. */
  method WriteAndRead(n: nat, m: nat, h: Bloom.Hashes) returns (r: Option<StatEntry>)
    requires n <= m < U64_LIMIT
    ensures r == Some(Number(m))
  {
    var c := NumberCodec();
    NumbersAreAdmissible(n);
    NumbersAreAdmissible(m);
    EmptyStart(c, h);
    hide Exec, Enabled, Admissible, LsmTree.FilesFormed, LsmTree.AbsFiles, LsmTree.Tree.Bound, LsmTree.Extends, LsmSafety.Best, EntryKey, Read;
    var filterSize: nat -> (nat, nat) := (k: nat) => (64, 12);
    assert LsmTree.Sized(filterSize);
    hide LsmTree.Sized;
    var t := new LsmTree.Tree(c, h, 0, filterSize, [], [], 0, [], Init);
    t.BoundFacts();
    t.Write(Number(m));
    t.Write(Number(n));
    r := t.Read(EntryKey(Number(0)));
    BestOfTwo(r, n, m);
  }
}
