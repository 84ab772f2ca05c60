/**
 Why recovery is promised only for logs whose records were all appended to a whole file:
 the log is not truncated at a torn tail when it is reopened (metastore/wal.go:93-142), so
 a record appended behind the tear is misread by the next replay.
 */
module LsmTornTail {
  import opened BigEndian
  import opened VectorClock
  import opened StatKey
  import opened LsmMachine
  import Wal

  lemma {:induction false} Get4(b: Bytes)
    requires |b| == 4
    ensures Get(b) == 0x100_0000 * b[0] as nat + 0x1_0000 * b[1] as nat + 0x100 * b[2] as nat + b[3] as nat
  {
    assert b[..3][..2] == b[..2] && b[..2][..1] == b[..1] && b[..1][..0] == [];
    assert Get(b[..1]) == b[0] as nat;
    assert Get(b[..2]) == 0x100 * b[0] as nat + b[1] as nat;
    assert Get(b[..3]) == 0x1_0000 * b[0] as nat + 0x100 * b[1] as nat + b[2] as nat;
  }

  lemma {:induction false} Put4Small(n: nat)
    requires n < 256
    ensures Put(n, 4) == [0, 0, 0, n as byte]
  {
    assert n / 256 == 0 && n % 256 == n;
    assert Put(0, 1) == [0] && Put(0, 2) == [0, 0] && Put(0, 3) == [0, 0, 0];
  }

  /** One stray zero byte in front of a record with a short key hides the record and all
      that follows it within a message's length. */
  lemma {:induction false} StrayByteHidesRecord(r: Wal.Record, rest: Bytes)
    requires r.status == Wal.PENDING && 3 <= |r.key| < 256
    requires |r.key| + |r.val| + |rest| <= MAX_MESSAGE + 1000
    ensures Wal.Replayed([0] + Wal.Encode(r) + rest) == []
  {
    var enc := Wal.Encode(r);
    var b := [0] + enc + rest;
    assert |enc| >= 17 && |enc| <= |r.key| + |r.val| + 17 && enc[8] == 0 && enc[9..13] == [0, 0, 0, |r.key| as byte] by {
      Put4Small(|r.key|);
      hide Put;
      Wal.EncodeFields(r);
    }
    hide Wal.Encode;
    ShiftByOne(enc, rest, |r.key| as byte);
    ShiftedHeader(b, |r.key|);
    assert Wal.RecordLength(b, 0) == None;
  }

  lemma {:induction false} ShiftByOne(enc: Bytes, rest: Bytes, n: byte)
    requires |enc| >= 17 && enc[8] == 0 && enc[9..13] == [0, 0, 0, n]
    ensures var b := [0] + enc + rest; b[9..13] == [0, 0, 0, 0] && b[13..17][0] == n
  {
    var b := [0] + enc + rest;
    assert enc[9..13][0] == enc[9] && enc[9..13][1] == enc[10] && enc[9..13][2] == enc[11] && enc[9..13][3] == enc[12];
    assert b[9] == enc[8] && b[10] == enc[9] && b[11] == enc[10] && b[12] == enc[11] && b[13] == enc[12];
  }

  /** Read one byte off, a header announces an empty key and a huge value. */
  lemma {:induction false} ShiftedHeader(b: Bytes, n: nat)
    requires |b| >= 17 && 3 <= n < 256 && |b| <= MAX_MESSAGE + 2000
    requires b[9..13] == [0, 0, 0, 0] && b[13..17][0] == n as byte
    ensures Wal.RecordLength(b, 0) == None
  {
    hide Get;
    Get4(b[9..13]);
    Get4(b[13..17]);
  }

  ghost function LossyRun(first: StatEntry, second: StatEntry): seq<Step> {
    [BeginAppend(first, 1), Crash(1), BeginAppend(second, 1), SyncLog, ApplyMem, WriteMarker(1), Invalidate]
  }

  /** The state after the first write crashed one byte into its record. */
  lemma {:induction false} AfterTear(c: Codec, first: StatEntry) returns (s: State)
    requires Admissible(c, first)
    ensures Exec(c, [BeginAppend(first, 1), Crash(1)]) == Some(s)
    ensures s.phase.Idle? && s.log == [0] && s.files == [] && !Wal.Whole(s.log)
  {
    var rec := DataRecord(c, first, 1);
    assert Wal.Encode(rec)[0] == 0 by { FirstByteOfOne(); }
    assert Wal.Whole([]);
    hide Wal.Encode, ReplayMem;
    var begin, crash := BeginAppend(first, 1), Crash(1);
    var s1 := Apply(c, Init, begin);
    assert s1.log == Wal.Encode(rec);
    s := Apply(c, s1, crash);
    Snoc(c, [], begin);
    Snoc(c, [begin], crash);
    assert [] + [begin] == [begin] && [begin] + [crash] == [begin, crash];
  }

  /** The five steps of a write, as one. */
  lemma {:induction false} WriteSteps(c: Codec, s: State, e: StatEntry) returns (s': State)
    requires s.phase.Idle? && Admissible(c, e)
    ensures Follows(c, s, [BeginAppend(e, 1), SyncLog, ApplyMem, WriteMarker(1), Invalidate]) == Some(s')
    ensures s'.phase.Idle? && s'.live == s.live + {e} && s'.files == s.files
    ensures s'.intact == (s.intact && Wal.Whole(s.log))
    ensures s'.log == s.log + Wal.Encode(DataRecord(c, e, 1)) + Wal.Encode(Marker(1))
  {
    hide Wal.Encode, Wal.Whole, PutMem, ReadStores;
    var s1 := Apply(c, s, BeginAppend(e, 1));
    var s2 := Apply(c, s1, SyncLog);
    var s3 := Apply(c, s2, ApplyMem);
    var s4 := Apply(c, s3, WriteMarker(1));
    s' := Apply(c, s4, Invalidate);
    hide Apply, Enabled;
    assert Follows(c, s', []) == Some(s');
    assert [Invalidate][1..] == [];
    assert Follows(c, s4, [Invalidate]) == Some(s');
    assert [WriteMarker(1), Invalidate][1..] == [Invalidate];
    assert Follows(c, s3, [WriteMarker(1), Invalidate]) == Some(s');
    assert [ApplyMem, WriteMarker(1), Invalidate][1..] == [WriteMarker(1), Invalidate];
    assert Follows(c, s2, [ApplyMem, WriteMarker(1), Invalidate]) == Some(s');
    assert [SyncLog, ApplyMem, WriteMarker(1), Invalidate][1..] == [ApplyMem, WriteMarker(1), Invalidate];
    assert Follows(c, s1, [SyncLog, ApplyMem, WriteMarker(1), Invalidate]) == Some(s');
    assert [BeginAppend(e, 1), SyncLog, ApplyMem, WriteMarker(1), Invalidate][1..] == [SyncLog, ApplyMem, WriteMarker(1), Invalidate];
  }

  /** Executing steps from a given state. */
  ghost function Follows(c: Codec, s: State, steps: seq<Step>): Option<State>
    decreases |steps|
  {
    if steps == [] then Some(s)
    else if Enabled(c, s, steps[0]) then Follows(c, Apply(c, s, steps[0]), steps[1..])
    else None
  }

  lemma {:induction false} ExecFollows(c: Codec, run: seq<Step>, steps: seq<Step>)
    requires Exec(c, run).Some?
    ensures Exec(c, run + steps) == Follows(c, Exec(c, run).value, steps) || Follows(c, Exec(c, run).value, steps).None?
    decreases |steps|
  {
    hide Apply, Enabled;
    if steps == [] {
      assert run + steps == run;
    } else if Enabled(c, Exec(c, run).value, steps[0]) {
      Snoc(c, run, steps[0]);
      ExecFollows(c, run + [steps[0]], steps[1..]);
      assert run + steps == run + [steps[0]] + steps[1..];
    }
  }

  /** A write crashes one byte into its log record; the tree is reopened and `second` is written
      and acknowledged. Nothing of `second` can be recovered by the next reopening: no table
      holds it and replay of the log returns nothing. */
  lemma {:induction false} AcknowledgedWriteCanBeLost(c: Codec, first: StatEntry, second: StatEntry)
    requires Admissible(c, first) && Admissible(c, second) && |EntryKey(second)| < 256
    ensures Exec(c, LossyRun(first, second)).Some?
    ensures var s := Exec(c, LossyRun(first, second)).value;
      s.phase.Idle? && second in s.live && !s.intact && s.files == [] && Wal.Replayed(s.log) == []
  {
    hide Apply, Enabled, Exec, Follows, Wal.Encode, Wal.Whole, Wal.Replayed;
    var torn := AfterTear(c, first);
    var s := WriteSteps(c, torn, second);
    var write := [BeginAppend(second, 1), SyncLog, ApplyMem, WriteMarker(1), Invalidate];
    assert LossyRun(first, second) == [BeginAppend(first, 1), Crash(1)] + write;
    ExecFollows(c, [BeginAppend(first, 1), Crash(1)], write);
    StrayByteHidesRecord(DataRecord(c, second, 1), Wal.Encode(Marker(1)));
  }

  lemma {:induction false} Snoc(c: Codec, run: seq<Step>, step: Step)
    ensures Exec(c, run + [step]) ==
      if Exec(c, run).Some? && Enabled(c, Exec(c, run).value, step) then Some(Apply(c, Exec(c, run).value, step)) else None
  {
    assert (run + [step])[..|run|] == run;
  }

  lemma {:induction false} FirstByteOfOne()
    ensures Put(1, 8)[0] == 0
  {
    assert Put(0, 2) == [0, 0];
    assert Put(0, 4)[0] == 0;
    assert Put(0, 6)[0] == 0;
  }
}
