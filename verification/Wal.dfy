/**
 The write-ahead log at byte level (metastore/wal.go): record encoding, the replay
 loop, and what survives when the file is cut at an arbitrary byte.
 */
module Wal {
  import opened BigEndian

  const PENDING: byte := 0
  const COMMITTED: byte := 1
  const HEADER: nat := 13

  /** One on-disk record; a commit marker has status COMMITTED and an empty key and value. */
  datatype Record = Record(seqNum: nat, status: byte, key: Bytes, val: Bytes)

  /** Replay's result element, with the key kept as raw bytes. */
  datatype WalEntry = WalEntry(seqNum: nat, key: Bytes, val: Bytes, status: byte)

  predicate Fits(r: Record) {
    r.seqNum < U64_LIMIT && |r.key| < U32_LIMIT && |r.val| < U32_LIMIT
  }

  /** writeRecord's buffer. */
  function Encode(r: Record): (b: Bytes)
    ensures |b| == HEADER + |r.key| + 4 + |r.val|
  {
    Put(r.seqNum, 8) + [r.status] + Put(|r.key|, 4) + r.key + Put(|r.val|, 4) + r.val
  }

  function EncodeAll(rs: seq<Record>): Bytes {
    if rs == [] then [] else EncodeAll(rs[..|rs| - 1]) + Encode(rs[|rs| - 1])
  }

  // ----- reading one record -----------------------------------------------------

  /** Length of the record that starts at byte `p`, if the file holds all of it. */
  function RecordLength(b: Bytes, p: nat): Option<nat>
    requires p <= |b|
  {
    if |b| - p < HEADER then None
    else
      var keyLen := Get(b[p + 9..p + 13]);
      if |b| - p < HEADER + keyLen + 4 then None
      else
        var valLen := Get(b[p + 13 + keyLen..p + 17 + keyLen]);
        if |b| - p < HEADER + keyLen + 4 + valLen then None
        else Some(HEADER + keyLen + 4 + valLen)
  }

  function RecordAt(b: Bytes, p: nat): Record
    requires p <= |b| && RecordLength(b, p).Some?
  {
    var keyLen := Get(b[p + 9..p + 13]);
    var valLen := Get(b[p + 13 + keyLen..p + 17 + keyLen]);
    Record(Get(b[p..p + 8]), b[p + 8], b[p + 13..p + 13 + keyLen],
           b[p + 17 + keyLen..p + 17 + keyLen + valLen])
  }

  /** All whole records from byte `p` on, stopping at the end or at a torn tail. */
  function ParseFrom(b: Bytes, p: nat): seq<Record>
    requires p <= |b|
    decreases |b| - p
  {
    if RecordLength(b, p).None? then []
    else [RecordAt(b, p)] + ParseFrom(b, p + RecordLength(b, p).value)
  }

  function ParseAll(b: Bytes): seq<Record> {
    ParseFrom(b, 0)
  }

  /** The file ends on a record boundary: no torn bytes at its end. */
  ghost predicate Whole(b: Bytes) {
    EncodeAll(ParseAll(b)) == b
  }

  // ----- parser facts -----------------------------------------------------------

  lemma {:induction false} SliceOfMiddle(pre: Bytes, mid: Bytes, post: Bytes, i: nat, j: nat)
    requires i <= j <= |mid|
    ensures (pre + mid + post)[|pre| + i..|pre| + j] == mid[i..j]
  {}

  lemma {:induction false} EncodeFields(r: Record)
    ensures var enc, k, v := Encode(r), |r.key|, |r.val|;
      && enc[0..8] == Put(r.seqNum, 8) && enc[8] == r.status && enc[9..13] == Put(k, 4)
      && enc[13..13 + k] == r.key && enc[13 + k..17 + k] == Put(v, 4) && enc[17 + k..17 + k + v] == r.val
  {
    hide Put;
  }

  /** A record written at byte `p` is read back, whatever follows it. */
  lemma {:induction false} RecordRoundTrip(pre: Bytes, r: Record, post: Bytes)
    requires Fits(r)
    ensures var b := pre + Encode(r) + post;
      && RecordLength(b, |pre|) == Some(|Encode(r)|)
      && RecordAt(b, |pre|) == r
  {
    hide Put, Get, Encode;
    var enc, k, v := Encode(r), |r.key|, |r.val|;
    EncodeFields(r);
    SliceOfMiddle(pre, enc, post, 0, 8);
    SliceOfMiddle(pre, enc, post, 9, 13);
    SliceOfMiddle(pre, enc, post, 13, 13 + k);
    SliceOfMiddle(pre, enc, post, 13 + k, 17 + k);
    SliceOfMiddle(pre, enc, post, 17 + k, 17 + k + v);
    GetPut64(r.seqNum);
    GetPut32(k);
    GetPut32(v);
  }

  lemma {:induction false} JoinSlices(b: Bytes, i: nat, j: nat, k: nat)
    requires i <= j <= k <= |b|
    ensures b[i..j] + b[j..k] == b[i..k]
  {}

  /** Conversely, whatever parses is the encoding of the record it parses to. */
  lemma {:induction false} ParsedIsEncoded(b: Bytes, p: nat)
    requires p <= |b| && RecordLength(b, p).Some?
    ensures Fits(RecordAt(b, p))
    ensures p + RecordLength(b, p).value <= |b|
    ensures b[p..p + RecordLength(b, p).value] == Encode(RecordAt(b, p))
  {
    hide Put, Get, Pow256;
    var r := RecordAt(b, p);
    var k, v := |r.key|, |r.val|;
    GetBound(b[p..p + 8]);
    GetBound(b[p + 9..p + 13]);
    GetBound(b[p + 13 + k..p + 17 + k]);
    FieldWidths();
    assert Encode(r) == b[p..p + 8] + [b[p + 8]] + b[p + 9..p + 13] + b[p + 13..p + 13 + k]
                      + b[p + 13 + k..p + 17 + k] + b[p + 17 + k..p + 17 + k + v] by {
      PutGet(b[p..p + 8]);
      PutGet(b[p + 9..p + 13]);
      PutGet(b[p + 13 + k..p + 17 + k]);
    }
    assert [b[p + 8]] == b[p + 8..p + 9];
    JoinSlices(b, p, p + 8, p + 9);
    JoinSlices(b, p, p + 9, p + 13);
    JoinSlices(b, p, p + 13, p + 13 + k);
    JoinSlices(b, p, p + 13 + k, p + 17 + k);
    JoinSlices(b, p, p + 17 + k, p + 17 + k + v);
  }

  /** Reading looks only at the record's own bytes: a longer file parses the same here. */
  lemma {:induction false} LengthLocal(a: Bytes, b: Bytes, p: nat)
    requires p <= |a| && a <= b
    ensures RecordLength(a, p).Some? ==> RecordLength(b, p) == RecordLength(a, p) && RecordAt(b, p) == RecordAt(a, p)
    ensures RecordLength(b, p).Some? && p + RecordLength(b, p).value <= |a| ==> RecordLength(a, p) == RecordLength(b, p)
  {
    assert forall i, j :: 0 <= i <= j <= |a| ==> b[i..j] == a[i..j];
  }

  /** Cutting the file anywhere leaves a prefix of its records. */
  lemma {:induction false} ParsePrefix(a: Bytes, b: Bytes, p: nat)
    requires p <= |a| && a <= b
    ensures ParseFrom(a, p) <= ParseFrom(b, p)
    decreases |a| - p
  {
    hide RecordLength, RecordAt;
    LengthLocal(a, b, p);
    LengthWithin(a, p);
    if RecordLength(a, p).Some? {
      ParsePrefix(a, b, p + RecordLength(a, p).value);
    }
  }

  /** Parsing `rs` from byte `p` means the file continues with the encoding of `rs`. */
  lemma {:induction false} ParsedPrefixEncoded(b: Bytes, p: nat)
    requires p <= |b|
    ensures |EncodeAll(ParseFrom(b, p))| <= |b| - p
    ensures b[p..p + |EncodeAll(ParseFrom(b, p))|] == EncodeAll(ParseFrom(b, p))
    decreases |b| - p
  {
    hide Encode, RecordLength, RecordAt;
    if RecordLength(b, p).Some? {
      ParsedIsEncoded(b, p);
      var n := RecordLength(b, p).value;
      ParsedPrefixEncoded(b, p + n);
      var rest := ParseFrom(b, p + n);
      EncodeAllCons(RecordAt(b, p), rest);
      var m := |EncodeAll(rest)|;
      assert b[p..p + n + m] == b[p..p + n] + b[p + n..p + n + m];
    }
  }

  lemma {:induction false} EncodeAllCons(r: Record, rs: seq<Record>)
    ensures EncodeAll([r] + rs) == Encode(r) + EncodeAll(rs)
  {
    hide Encode, RecordLength, RecordAt;
    var all := [r] + rs;
    if rs == [] {
      assert all[..0] == [];
    } else {
      var init := rs[..|rs| - 1];
      assert all[..|all| - 1] == [r] + init;
      EncodeAllCons(r, init);
      Associative(Encode(r), EncodeAll(init), Encode(rs[|rs| - 1]));
    }
  }

  lemma {:induction false} Associative(a: Bytes, b: Bytes, c: Bytes)
    ensures (a + b) + c == a + (b + c)
  {}

  lemma {:induction false} EncodeAllConcat(xs: seq<Record>, ys: seq<Record>)
    ensures EncodeAll(xs + ys) == EncodeAll(xs) + EncodeAll(ys)
  {
    hide Encode, RecordLength, RecordAt;
    if ys == [] {
      assert xs + ys == xs;
    } else {
      var init, last := ys[..|ys| - 1], ys[|ys| - 1];
      EncodeAllConcat(xs, init);
      var all := xs + ys;
      assert all[..|all| - 1] == xs + init && all[|all| - 1] == last;
      Associative(EncodeAll(xs), EncodeAll(init), Encode(last));
    }
  }

  ghost predicate AllFit(rs: seq<Record>) {
    forall r <- rs :: Fits(r)
  }

  /** A file made of whole records parses to them, followed by whatever parses after them. */
  lemma {:induction false} ParseOfEncoded(pre: Bytes, rs: seq<Record>, post: Bytes)
    requires AllFit(rs)
    ensures var b := pre + EncodeAll(rs) + post;
      ParseFrom(b, |pre|) == rs + ParseFrom(b, |pre| + |EncodeAll(rs)|)
    decreases |rs|
  {
    hide Encode, RecordLength, RecordAt;
    var b := pre + EncodeAll(rs) + post;
    if rs != [] {
      var r, rest := rs[0], rs[1..];
      assert rs == [r] + rest;
      EncodeAllCons(r, rest);
      assert b == pre + Encode(r) + (EncodeAll(rest) + post);
      RecordRoundTrip(pre, r, EncodeAll(rest) + post);
      var pre' := pre + Encode(r);
      assert b == pre' + EncodeAll(rest) + post;
      ParseOfEncoded(pre', rest, post);
      assert |pre'| + |EncodeAll(rest)| == |pre| + |EncodeAll(rs)|;
    }
  }

  lemma {:induction false} ParseOfEncodeAll(rs: seq<Record>)
    requires AllFit(rs)
    ensures ParseAll(EncodeAll(rs)) == rs && Whole(EncodeAll(rs))
  {
    hide Encode, RecordLength, RecordAt;
    LengthWithin(EncodeAll(rs), |EncodeAll(rs)|);
    ParseOfEncoded([], rs, []);
    assert [] + EncodeAll(rs) + [] == EncodeAll(rs);
  }

  lemma {:induction false} ParsedFits(b: Bytes, p: nat)
    requires p <= |b|
    ensures AllFit(ParseFrom(b, p))
    decreases |b| - p
  {
    if RecordLength(b, p).Some? {
      ParsedIsEncoded(b, p);
      ParsedFits(b, p + RecordLength(b, p).value);
    }
  }

  /** Appending to a file that ends on a boundary adds exactly the new record. */
  lemma {:induction false} AppendToWhole(b: Bytes, r: Record)
    requires Whole(b) && Fits(r)
    ensures ParseAll(b + Encode(r)) == ParseAll(b) + [r]
    ensures Whole(b + Encode(r))
  {
    ParsedFits(b, 0);
    var rs := ParseAll(b) + [r];
    assert rs[..|rs| - 1] == ParseAll(b);
    assert EncodeAll(rs) == b + Encode(r);
    ParseOfEncodeAll(rs);
  }

  // ----- cutting the log --------------------------------------------------------

  /** How many records of `rs` end at or before byte `cut` of their encoding. */
  ghost function WholeCount(rs: seq<Record>, cut: nat): (k: nat)
    ensures k <= |rs|
  {
    if rs == [] then 0
    else if |EncodeAll(rs)| <= cut then |rs|
    else WholeCount(rs[..|rs| - 1], cut)
  }

  /** The count is the boundary between the records that end by `cut` and those that do not. */
  lemma {:induction false} WholeCountBounds(rs: seq<Record>, cut: nat)
    ensures var k := WholeCount(rs, cut);
      && |EncodeAll(rs[..k])| <= cut
      && (k < |rs| ==> |EncodeAll(rs[..k + 1])| > cut)
      && (cut == |EncodeAll(rs)| ==> k == |rs|)
  {
    hide Encode;
    assert rs[..|rs|] == rs;
    if rs != [] && |EncodeAll(rs)| > cut {
      var init := rs[..|rs| - 1];
      WholeCountBounds(init, cut);
      var k := WholeCount(init, cut);
      assert rs[..k] == init[..k];
      if k < |init| { assert rs[..k + 1] == init[..k + 1]; } else { assert rs[..k + 1] == rs; }
    }
  }

  /** For every cut point, replay sees exactly the records that lie wholly before it. */
  lemma {:induction false} CutKeepsWholeRecords(rs: seq<Record>, cut: nat)
    requires AllFit(rs) && cut <= |EncodeAll(rs)|
    ensures ParseAll(EncodeAll(rs)[..cut]) == rs[..WholeCount(rs, cut)]
  {
    hide Encode, EncodeAll, WholeCount, RecordLength, RecordAt;
    var b := EncodeAll(rs);
    var a := b[..cut];
    var k := WholeCount(rs, cut);
    WholeCountBounds(rs, cut);
    var done := EncodeAll(rs[..k]);
    assert rs == rs[..k] + rs[k..];
    EncodeAllConcat(rs[..k], rs[k..]);
    assert a == [] + done + a[|done|..];
    ParseOfEncoded([], rs[..k], a[|done|..]);
    if k < |rs| {
      NextIsTorn(rs, k, cut);
    } else {
      assert rs[..k] == rs;
      LengthWithin(a, |done|);
    }
    assert ParseFrom(a, |done|) == [];
  }

  /** The record in which the cut falls is not read. */
  lemma {:induction false} NextIsTorn(rs: seq<Record>, k: nat, cut: nat)
    requires AllFit(rs) && k < |rs|
    requires |EncodeAll(rs[..k])| <= cut < |EncodeAll(rs[..k + 1])|
    requires cut <= |EncodeAll(rs)|
    ensures RecordLength(EncodeAll(rs)[..cut], |EncodeAll(rs[..k])|).None?
  {
    hide Encode, RecordLength, RecordAt;
    var b := EncodeAll(rs);
    var r := rs[k];
    var done, rest := EncodeAll(rs[..k]), EncodeAll(rs[k + 1..]);
    assert rs[..k + 1][..k] == rs[..k];
    assert EncodeAll(rs[..k + 1]) == done + Encode(r);
    assert rs == rs[..k + 1] + rs[k + 1..];
    EncodeAllConcat(rs[..k + 1], rs[k + 1..]);
    assert b == done + Encode(r) + rest;
    RecordRoundTrip(done, r, rest);
    LengthWithin(b[..cut], |done|);
    LengthLocal(b[..cut], b, |done|);
  }

  lemma {:induction false} LengthWithin(b: Bytes, p: nat)
    requires p <= |b|
    ensures RecordLength(b, p).Some? ==> HEADER + 4 <= RecordLength(b, p).value <= |b| - p
  {}

  // ----- appending after a torn tail ----------------------------------------------

  /** On a file with a torn tail some append is not read back: replay misparses from the tear on. */
  lemma {:induction false} TornTailLosesAnAppend(b: Bytes, seqNum: nat, key: Bytes) returns (r: Record)
    requires !Whole(b) && seqNum < U64_LIMIT && |key| < U32_LIMIT
    ensures r.seqNum == seqNum && r.key == key && r.status == PENDING && Fits(r)
    ensures ParseAll(b + Encode(r)) != ParseAll(b) + [r]
  {
    hide RecordLength, RecordAt, Put;
    var r0 := Record(seqNum, PENDING, key, [0]);
    var r1 := Record(seqNum, PENDING, key, [1]);
    var n := |b + Encode(r0)| - 1;
    assert (b + Encode(r0))[..n] == (b + Encode(r1))[..n];
    assert forall i :: 0 <= i < n ==> (b + Encode(r0))[i] == (b + Encode(r1))[i];
    if ParseAll(b + Encode(r0)) == ParseAll(b) + [r0] && ParseAll(b + Encode(r1)) == ParseAll(b) + [r1] {
      var i := LastByteRepeats(b, r0);
      var j := LastByteRepeats(b, r1);
      assert false;
    }
    r := if ParseAll(b + Encode(r0)) == ParseAll(b) + [r0] then r1 else r0;
  }

  /** If a record is read back after a tear, its last byte also occurs earlier in the file. */
  lemma {:induction false} LastByteRepeats(b: Bytes, r: Record) returns (i: nat)
    requires !Whole(b) && |r.val| > 0
    requires ParseAll(b + Encode(r)) == ParseAll(b) + [r]
    ensures i == |EncodeAll(ParseAll(b))| + |Encode(r)| - 1
    ensures i < |b + Encode(r)| - 1
    ensures (b + Encode(r))[i] == r.val[|r.val| - 1]
  {
    hide RecordLength, RecordAt, Put;
    var done := EncodeAll(ParseAll(b));
    ParsedPrefixEncoded(b, 0);
    ParsedPrefixEncoded(b + Encode(r), 0);
    var rs := ParseAll(b) + [r];
    assert rs[..|rs| - 1] == ParseAll(b);
    assert EncodeAll(rs) == done + Encode(r);
    assert b[0..|b|] == b;
    assert |done| < |b|;
    i := |done| + |Encode(r)| - 1;
    assert (b + Encode(r))[i] == (b + Encode(r))[0..i + 1][i] == (done + Encode(r))[i];
  }

  /** Every append survives replay exactly when the file ends on a record boundary. */
  lemma {:induction false} AppendsSurviveIffWhole(b: Bytes)
    ensures Whole(b) <==> forall r: Record | Fits(r) :: ParseAll(b + Encode(r)) == ParseAll(b) + [r]
  {
    if Whole(b) {
      forall r: Record | Fits(r) ensures ParseAll(b + Encode(r)) == ParseAll(b) + [r] {
        AppendToWhole(b, r);
      }
    } else {
      var r := TornTailLosesAnAppend(b, 0, []);
    }
  }

  // ----- replay ---------------------------------------------------------------------

  function Data(rs: seq<Record>): seq<Record> {
    if rs == [] then []
    else Data(rs[..|rs| - 1]) + (if rs[|rs| - 1].status == COMMITTED then [] else [rs[|rs| - 1]])
  }

  function CommittedSeqs(rs: seq<Record>): set<nat> {
    set r | r in rs && r.status == COMMITTED :: r.seqNum
  }

  function Mark(data: seq<Record>, committed: set<nat>): seq<WalEntry> {
    seq(|data|, i requires 0 <= i < |data| =>
      WalEntry(data[i].seqNum, data[i].key, data[i].val,
               if data[i].seqNum in committed then COMMITTED else PENDING))
  }

  function MaxSeq(rs: seq<Record>): nat {
    if rs == [] then 0
    else if rs[|rs| - 1].seqNum > MaxSeq(rs[..|rs| - 1]) then rs[|rs| - 1].seqNum
    else MaxSeq(rs[..|rs| - 1])
  }

  /** What replay returns for a given file. */
  function Replayed(file: Bytes): seq<WalEntry> {
    Mark(Data(ParseAll(file)), CommittedSeqs(ParseAll(file)))
  }

  lemma {:induction false} ReplayStart(file: Bytes)
    ensures [] + ParseFrom(file, 0) == ParseAll(file)
    ensures Data([]) == [] && CommittedSeqs([]) == {} && MaxSeq([]) == 0
  {}

  lemma {:induction false} ParseStep(file: Bytes, p: nat, read: seq<Record>)
    requires p <= |file| && RecordLength(file, p).Some?
    requires read + ParseFrom(file, p) == ParseAll(file)
    ensures 0 < RecordLength(file, p).value <= |file| - p
    ensures read + [RecordAt(file, p)] + ParseFrom(file, p + RecordLength(file, p).value) == ParseAll(file)
  {
    hide RecordLength, RecordAt;
    LengthWithin(file, p);
    var r, rest := RecordAt(file, p), ParseFrom(file, p + RecordLength(file, p).value);
    assert read + ([r] + rest) == read + [r] + rest;
  }

  lemma {:induction false} CollectStep(read: seq<Record>, r: Record)
    ensures Data(read + [r]) == Data(read) + (if r.status == COMMITTED then [] else [r])
    ensures CommittedSeqs(read + [r]) == CommittedSeqs(read) + (if r.status == COMMITTED then {r.seqNum} else {})
    ensures MaxSeq(read + [r]) == if r.seqNum > MaxSeq(read) then r.seqNum else MaxSeq(read)
  {
    var next := read + [r];
    assert next[..|next| - 1] == read;
    assert forall x :: x in next <==> x in read || x == r;
  }

  lemma {:induction false} ReplayEnd(file: Bytes, p: nat)
    requires p <= |file| && RecordLength(file, p).None?
    ensures ParseFrom(file, p) == []
    ensures Replayed(file) == Mark(Data(ParseAll(file)), CommittedSeqs(ParseAll(file)))
  {}

  class Log {
    var file: Bytes
    var synced: nat  // bytes known to be on stable storage
    var seqNum: nat

    constructor (file: Bytes)
      ensures this.file == file && synced == |file| && seqNum == 0
    {
      this.file := file;
      this.synced := |file|;
      this.seqNum := 0;
    }

    method WriteRecord(r: Record)
      modifies this`file
      ensures file == old(file) + Encode(r)
    {
      file := file + Encode(r);
    }

    /** Append: a pending record, fsynced before the caller touches the memtable. */
    method Append(key: Bytes, val: Bytes) returns (n: nat)
      modifies this
      ensures n == seqNum == (old(seqNum) + 1) % U64_LIMIT
      ensures file == old(file) + Encode(Record(n, PENDING, key, val))
      ensures synced == |file|
    {
      seqNum := (seqNum + 1) % U64_LIMIT;
      n := seqNum;
      WriteRecord(Record(n, PENDING, key, val));
      synced := |file|;
    }

    /** Commit: a best-effort marker, not fsynced. */
    method Commit(n: nat)
      modifies this`file
      ensures file == old(file) + Encode(Record(n, COMMITTED, [], []))
    {
      WriteRecord(Record(n, COMMITTED, [], []));
    }

    /** Replay: scan the file, collect data records and commit markers, then mark. */
    method Replay() returns (out: seq<WalEntry>)
      modifies this`seqNum
      ensures out == Replayed(file)
      ensures seqNum == MaxSeq(ParseAll(file))
    {
      hide *;
      var committed: set<nat> := {};
      var records: seq<Record> := [];
      var maxSeq := 0;
      var p := 0;
      ghost var read: seq<Record> := [];
      ReplayStart(file);
      while RecordLength(file, p).Some?
        invariant p <= |file|
        invariant read + ParseFrom(file, p) == ParseAll(file)
        invariant records == Data(read) && committed == CommittedSeqs(read) && maxSeq == MaxSeq(read)
        decreases |file| - p
      {
        ParseStep(file, p, read);
        var r := RecordAt(file, p);
        CollectStep(read, r);
        if r.seqNum > maxSeq { maxSeq := r.seqNum; }
        if r.status == COMMITTED {
          committed := committed + {r.seqNum};
        } else {
          records := records + [r];
        }
        p := p + RecordLength(file, p).value;
        read := read + [r];
      }
      ReplayEnd(file, p);
      assert read == ParseAll(file);
      out := Mark(records, committed);
      seqNum := maxSeq;
    }

    /** Rotate: drop the log after its data has reached a table. */
    method Rotate()
      modifies this
      ensures file == [] && synced == 0 && seqNum == 0
    {
      file := [];
      seqNum := 0;
      synced := 0;
    }
  }

  // ----- which data a log file holds ----------------------------------------------------

  /** Replay of `b` returns a data record with this key and value. */
  ghost predicate Has(b: Bytes, key: Bytes, val: Bytes) {
    exists r <- ParseAll(b) :: r.status != COMMITTED && r.key == key && r.val == val
  }

  lemma {:induction false} HasAfterCut(a: Bytes, b: Bytes, key: Bytes, val: Bytes)
    requires a <= b && Has(a, key, val)
    ensures Has(b, key, val)
  {
    ParsePrefix(a, b, 0);
    hide ParseFrom;
    var r :| r in ParseAll(a) && r.status != COMMITTED && r.key == key && r.val == val;
    assert r in ParseAll(b);
  }

  lemma {:induction false} HasAfterAppend(b: Bytes, r: Record, key: Bytes, val: Bytes)
    requires Whole(b) && Fits(r)
    ensures Whole(b + Encode(r))
    ensures Has(b + Encode(r), key, val) <==>
      Has(b, key, val) || (r.status != COMMITTED && r.key == key && r.val == val)
  {
    AppendToWhole(b, r);
    hide ParseAll, Whole, Encode;
    var after := ParseAll(b + Encode(r));
    assert forall x :: x in after <==> x in ParseAll(b) || x == r;
  }

  lemma {:induction false} DataMembers(rs: seq<Record>, r: Record)
    ensures r in Data(rs) <==> r in rs && r.status != COMMITTED
  {
    if rs != [] { DataMembers(rs[..|rs| - 1], r); }
  }

  /** The replayed list holds exactly the data the file holds. */
  lemma {:induction false} HasIffReplayed(b: Bytes, key: Bytes, val: Bytes)
    ensures Has(b, key, val) <==>
      exists i :: 0 <= i < |Replayed(b)| && Replayed(b)[i].key == key && Replayed(b)[i].val == val
  {
    hide ParseAll, Data;
    var data := Data(ParseAll(b));
    if Has(b, key, val) {
      var r :| r in ParseAll(b) && r.status != COMMITTED && r.key == key && r.val == val;
      DataMembers(ParseAll(b), r);
      var i :| 0 <= i < |data| && data[i] == r;
      assert Replayed(b)[i].key == key;
    }
    if i :| 0 <= i < |Replayed(b)| && Replayed(b)[i].key == key && Replayed(b)[i].val == val {
      DataMembers(ParseAll(b), data[i]);
    }
  }

  // ----- own commit markers -----------------------------------------------------------

  /** What callers did to one log generation; a commit names the append it belongs to. */
  datatype Event = Appended(key: Bytes, val: Bytes) | Committed(target: nat)

  function Count(evs: seq<Event>): nat {
    if evs == [] then 0 else Count(evs[..|evs| - 1]) + if evs[|evs| - 1].Appended? then 1 else 0
  }

  predicate TargetOk(evs: seq<Event>, i: nat)
    requires i < |evs|
  {
    evs[i].Committed? ==> evs[i].target < i && evs[evs[i].target].Appended?
  }

  ghost predicate WellFormed(evs: seq<Event>) {
    forall i: nat :: i < |evs| ==> TargetOk(evs, i)
  }

  /** The sequence number the log gave to the append at position `i`. */
  function SeqOf(evs: seq<Event>, i: nat): nat
    requires i < |evs|
  {
    Count(evs[..i]) + 1
  }

  function RecordOf(evs: seq<Event>, i: nat): Record
    requires i < |evs| && TargetOk(evs, i)
  {
    match evs[i]
    case Appended(key, val) => Record(SeqOf(evs, i), PENDING, key, val)
    case Committed(target) => Record(SeqOf(evs, target), COMMITTED, [], [])
  }

  ghost function Written(evs: seq<Event>): seq<Record>
    requires WellFormed(evs)
  {
    seq(|evs|, i requires 0 <= i < |evs| => RecordOf(evs, i))
  }

  /** Sequence numbers are strictly increasing along the appends of one log. */
  lemma {:induction false} CountMonotone(evs: seq<Event>, i: nat, j: nat)
    requires i < j <= |evs|
    ensures Count(evs[..i]) <= Count(evs[..j])
    ensures evs[i].Appended? ==> Count(evs[..i]) < Count(evs[..j])
    decreases j
  {
    assert evs[..j][..j - 1] == evs[..j - 1];
    if i < j - 1 { CountMonotone(evs, i, j - 1); }
  }

  lemma {:induction false} SeqInjective(evs: seq<Event>, i: nat, j: nat)
    requires i < |evs| && j < |evs| && evs[i].Appended? && evs[j].Appended?
    ensures SeqOf(evs, i) == SeqOf(evs, j) <==> i == j
  {
    if i < j { CountMonotone(evs, i, j); }
    if j < i { CountMonotone(evs, j, i); }
  }

  /** The log file of one generation, possibly with a torn tail, and its counter. */
  ghost predicate Represents(file: Bytes, seqNum: nat, evs: seq<Event>) {
    WellFormed(evs) && ParseAll(file) == Written(evs) && seqNum == Count(evs)
  }

  /** A replayed append is marked committed exactly when its own marker is whole as well. */
  lemma {:induction false} ReplayMarksOwnCommit(file: Bytes, seqNum: nat, evs: seq<Event>, i: nat)
    requires Represents(file, seqNum, evs)
    requires i < |evs| && evs[i].Appended?
    ensures SeqOf(evs, i) in CommittedSeqs(ParseAll(file)) <==> Committed(i) in evs
  {
    hide ParseAll;
    var rs := Written(evs);
    if Committed(i) in evs {
      var j :| 0 <= j < |evs| && evs[j] == Committed(i);
      assert rs[j] in rs;
    }
    if SeqOf(evs, i) in CommittedSeqs(rs) {
      var r :| r in rs && r.status == COMMITTED && r.seqNum == SeqOf(evs, i);
      var j :| 0 <= j < |rs| && rs[j] == r;
      assert TargetOk(evs, j);
      SeqInjective(evs, evs[j].target, i);
    }
  }

  /** The positions of the appends of a generation, in order. */
  ghost function Appends(evs: seq<Event>): (idx: seq<nat>)
    ensures forall m :: 0 <= m < |idx| ==> idx[m] < |evs| && evs[idx[m]].Appended?
  {
    if evs == [] then []
    else Appends(evs[..|evs| - 1]) + (if evs[|evs| - 1].Appended? then [|evs| - 1] else [])
  }

  lemma {:induction false} WrittenPrefix(evs: seq<Event>, k: nat)
    requires WellFormed(evs) && k <= |evs|
    ensures WellFormed(evs[..k]) && Written(evs[..k]) == Written(evs)[..k]
  {
    var pre := evs[..k];
    forall i: nat | i < k ensures TargetOk(pre, i) && RecordOf(pre, i) == RecordOf(evs, i) {
      assert TargetOk(evs, i);
      var at := if evs[i].Appended? then i else evs[i].target;
      assert pre[..at] == evs[..at];
    }
  }

  /** Replay's data records are the appends, in order, and its counter resumes at their number. */
  lemma {:induction false} DataOfWritten(evs: seq<Event>)
    requires WellFormed(evs)
    ensures |Data(Written(evs))| == |Appends(evs)|
    ensures forall m :: 0 <= m < |Appends(evs)| ==> Data(Written(evs))[m] == RecordOf(evs, Appends(evs)[m])
    ensures MaxSeq(Written(evs)) == Count(evs)
    decreases |evs|
  {
    if evs != [] {
      var n := |evs| - 1;
      var init := evs[..n];
      WrittenPrefix(evs, n);
      DataOfWritten(init);
      forall i: nat | i < n && evs[i].Appended? ensures RecordOf(init, i) == RecordOf(evs, i) {
        assert init[..i] == evs[..i];
      }
      assert TargetOk(evs, n);
      if evs[n].Committed? {
        CountMonotone(evs, evs[n].target, n);
      }
    }
  }

  /** A log generation written by any sequence of appends and commits, cut at any byte: replay
      returns exactly the appends wholly before the cut, in order, each marked committed iff its
      own commit marker is wholly before the cut too; the counter resumes where they end. */
  lemma {:induction false} ReplayOfCut(evs: seq<Event>, cut: nat)
    requires WellFormed(evs) && AllFit(Written(evs)) && cut <= |EncodeAll(Written(evs))|
    ensures
      var file := EncodeAll(Written(evs))[..cut];
      var kept := evs[..WholeCount(Written(evs), cut)];
      var idx := Appends(kept);
      && Represents(file, MaxSeq(ParseAll(file)), kept)
      && |Replayed(file)| == |idx|
      && forall m :: 0 <= m < |idx| ==>
           && Replayed(file)[m].key == kept[idx[m]].key && Replayed(file)[m].val == kept[idx[m]].val
           && Replayed(file)[m].seqNum == SeqOf(kept, idx[m])
           && (Replayed(file)[m].status == COMMITTED <==> Committed(idx[m]) in kept)
  {
    hide EncodeAll, ParseAll, WholeCount, Data, MaxSeq, CommittedSeqs, AllFit, Written, Appends, SeqOf;
    var rs := Written(evs);
    assert |rs| == |evs| by { WrittenPrefix(evs, 0); WrittenLength(evs); }
    var k := WholeCount(rs, cut);
    var file, kept := EncodeAll(rs)[..cut], evs[..k];
    CutKeepsWholeRecords(rs, cut);
    WrittenPrefix(evs, k);
    DataOfWritten(kept);
    forall m: nat | m < |Appends(kept)|
      ensures SeqOf(kept, Appends(kept)[m]) in CommittedSeqs(ParseAll(file)) <==> Committed(Appends(kept)[m]) in kept
    {
      ReplayMarksOwnCommit(file, Count(kept), kept, Appends(kept)[m]);
    }
  }

  lemma {:induction false} WrittenLength(evs: seq<Event>)
    requires WellFormed(evs)
    ensures |Written(evs)| == |evs|
    ensures forall i :: 0 <= i < |evs| ==> Written(evs)[i] == RecordOf(evs, i)
  {}

  lemma {:induction false} WellFormedExtends(evs: seq<Event>, ev: Event)
    requires WellFormed(evs) && TargetOk(evs + [ev], |evs|)
    ensures WellFormed(evs + [ev])
    ensures Count(evs + [ev]) == Count(evs) + if ev.Appended? then 1 else 0
  {
    var evs' := evs + [ev];
    assert evs'[..|evs|] == evs;
    forall i: nat | i < |evs'| ensures TargetOk(evs', i) {
      if i < |evs| { assert TargetOk(evs, i); }
    }
  }

  lemma {:induction false} WrittenExtends(evs: seq<Event>, ev: Event)
    requires WellFormed(evs) && WellFormed(evs + [ev]) && TargetOk(evs + [ev], |evs|)
    ensures Written(evs + [ev]) == Written(evs) + [RecordOf(evs + [ev], |evs|)]
  {
    hide RecordOf, WellFormed, Written, TargetOk;
    var evs' := evs + [ev];
    assert evs'[..|evs|] == evs;
    WrittenPrefix(evs', |evs|);
    WrittenLength(evs');
    var all := Written(evs');
    assert all == all[..|evs|] + [all[|evs|]];
  }

  /** Appending to a log that ends on a boundary, as `Log.Append` does, adds one append event. */
  lemma {:induction false} AppendExtends(file: Bytes, seqNum: nat, evs: seq<Event>, key: Bytes, val: Bytes)
    requires Represents(file, seqNum, evs) && Whole(file)
    requires seqNum + 1 < U64_LIMIT && |key| < U32_LIMIT && |val| < U32_LIMIT
    ensures var r := Record(seqNum + 1, PENDING, key, val);
      Represents(file + Encode(r), seqNum + 1, evs + [Appended(key, val)]) && Whole(file + Encode(r))
  {
    hide Whole, ParseAll, Encode, Written, Count;
    AppendToWhole(file, Record(seqNum + 1, PENDING, key, val));
    WellFormedExtends(evs, Appended(key, val));
    WrittenExtends(evs, Appended(key, val));
    assert (evs + [Appended(key, val)])[..|evs|] == evs;
  }

  /** Committing the append at position `i` adds its own marker. */
  lemma {:induction false} CommitExtends(file: Bytes, seqNum: nat, evs: seq<Event>, i: nat)
    requires Represents(file, seqNum, evs) && Whole(file)
    requires i < |evs| && evs[i].Appended? && SeqOf(evs, i) < U64_LIMIT
    ensures var r := Record(SeqOf(evs, i), COMMITTED, [], []);
      Represents(file + Encode(r), seqNum, evs + [Committed(i)]) && Whole(file + Encode(r))
  {
    hide Whole, ParseAll, Encode, Written, Count;
    AppendToWhole(file, Record(SeqOf(evs, i), COMMITTED, [], []));
    WellFormedExtends(evs, Committed(i));
    WrittenExtends(evs, Committed(i));
    assert (evs + [Committed(i)])[..i] == evs[..i];
  }
}
