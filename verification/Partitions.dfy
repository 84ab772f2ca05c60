/**
 A broker partition (broker/partition.go): an offset-to-byte index over an append-only file
 whose head is trimmed in place and whose index is rebuilt from the bytes. It refines an
 ever-growing list of payloads of which the first `base` are no longer readable.
 */
module Partitions {
  import opened BigEndian

  const HEADER: nat := 12
  const I64_LIMIT: nat := 0x8000_0000_0000_0000

  /** ReadAt's outcome: a payload, end of log, or a failed file read. */
  datatype ReadResult = Payload(bytes: Bytes) | EndOfLog | ReadError

  // ----- the file format -------------------------------------------------------------

  /** [8 bytes offset][4 bytes length][payload]. */
  function Frame(o: nat, payload: Bytes): (f: Bytes)
    ensures |f| == HEADER + |payload|
  {
    Put(o, 8) + Put(|payload|, 4) + payload
  }

  /** The file that holds payloads `base`, `base + 1`, ... of a history. */
  ghost function Image(history: seq<Bytes>, base: nat): Bytes {
    if |history| <= base then []
    else Image(history[..|history| - 1], base) + Frame(|history| - 1, history[|history| - 1])
  }

  /** The byte position of offset `o`. */
  ghost function Position(history: seq<Bytes>, base: nat, o: nat): nat
    requires o <= |history|
  {
    |Image(history[..o], base)|
  }

  ghost predicate Writable(history: seq<Bytes>) {
    |history| < I64_LIMIT && forall i :: 0 <= i < |history| ==> |history[i]| < U32_LIMIT
  }

  lemma {:induction false} WritableAt(history: seq<Bytes>, o: nat)
    requires Writable(history) && o < |history|
    ensures |history[o]| < U32_LIMIT && o < I64_LIMIT
  {}

  lemma {:induction false} ImageSplit(history: seq<Bytes>, base: nat, o: nat)
    requires base <= o <= |history|
    ensures Image(history, base) == Image(history[..o], base) + Image(history, o)
  {
    hide Frame;
    if o == |history| {
      assert history[..o] == history;
      assert Image(history, o) == [];
    } else {
      var n := |history| - 1;
      var f := Frame(n, history[n]);
      ImageSplit(history[..n], base, o);
      assert history[..n][..o] == history[..o];
      assert Image(history, base) == Image(history[..n], base) + f;
      assert Image(history, o) == Image(history[..n], o) + f;
    }
  }

  lemma {:induction false} ImageSnoc(history: seq<Bytes>, payload: Bytes, base: nat)
    requires base <= |history|
    ensures Image(history + [payload], base) == Image(history, base) + Frame(|history|, payload)
  {
    assert (history + [payload])[..|history|] == history;
  }

  /** The file from the record of offset `o` on. */
  lemma {:induction false} ImageFrom(history: seq<Bytes>, o: nat)
    requires o < |history|
    ensures Image(history, o) == Frame(o, history[o]) + Image(history, o + 1)
  {
    hide Frame;
    ImageSplit(history, o, o + 1);
    var h := history[..o + 1];
    assert h[..o] == history[..o];
    assert Image(history[..o], o) == [];
    assert Image(h, o) == Image(h[..o], o) + Frame(o, h[o]);
  }

  /** Successive positions differ by one record. */
  lemma {:induction false} PositionStep(history: seq<Bytes>, base: nat, o: nat)
    requires base <= o < |history|
    ensures Position(history, base, o + 1) == Position(history, base, o) + HEADER + |history[o]|
  {
    var h := history[..o + 1];
    assert h[..o] == history[..o];
  }

  lemma {:induction false} PositionBound(history: seq<Bytes>, base: nat, o: nat)
    requires base <= o <= |history|
    ensures Position(history, base, o) <= |Image(history, base)|
  {
    ImageSplit(history, base, o);
  }

  lemma {:induction false} PositionMonotone(history: seq<Bytes>, base: nat, o: nat, o': nat)
    requires base <= o <= o' <= |history|
    ensures Position(history, base, o) <= Position(history, base, o')
    ensures o < o' ==> Position(history, base, o) + HEADER + |history[o]| <= Position(history, base, o')
    decreases |history| - o
  {
    if o < o' {
      PositionStep(history, base, o);
      PositionMonotone(history, base, o + 1, o');
    }
  }

  /** Positions are relative to the first retained record, so trimming shifts them all alike. */
  lemma {:induction false} PositionShift(history: seq<Bytes>, base: nat, base': nat, o: nat)
    requires base <= base' <= o <= |history|
    ensures Position(history, base, o) == Position(history, base, base') + Position(history, base', o)
  {
    ImageSplit(history[..o], base, base');
    assert history[..o][..base'] == history[..base'];
  }

  lemma {:induction false} PositionAtBase(history: seq<Bytes>, base: nat)
    requires base <= |history|
    ensures Position(history, base, base) == 0
  {}

  lemma {:induction false} PositionPrefix(history: seq<Bytes>, payload: Bytes, base: nat, o: nat)
    requires o <= |history|
    ensures Position(history + [payload], base, o) == Position(history, base, o)
  {
    assert (history + [payload])[..o] == history[..o];
  }

  // ----- headers ----------------------------------------------------------------------

  function LengthAt(file: Bytes, pos: nat): nat
    requires pos + HEADER <= |file|
  {
    Get(file[pos + 8..pos + HEADER])
  }

  /** int64(binary.BigEndian.Uint64(...)) */
  function OffsetAt(file: Bytes, pos: nat): int
    requires pos + HEADER <= |file|
  {
    var n := Get(file[pos..pos + 8]);
    if n < I64_LIMIT then n else n - U64_LIMIT
  }

  lemma {:induction false} FrameHeader(o: nat, payload: Bytes, rest: Bytes)
    requires o < I64_LIMIT && |payload| < U32_LIMIT
    ensures var file := Frame(o, payload) + rest;
      OffsetAt(file, 0) == o && LengthAt(file, 0) == |payload| && file[HEADER..HEADER + |payload|] == payload
  {
    var file := Frame(o, payload) + rest;
    assert file[0..8] == Put(o, 8);
    assert file[8..HEADER] == Put(|payload|, 4);
    GetPut64(o);
    GetPut32(|payload|);
  }

  /** The header and payload found at a record's position, also when later bytes are missing. */
  lemma {:induction false} RecordAt(history: seq<Bytes>, base: nat, o: nat, cut: nat)
    requires Writable(history) && base <= o < |history| && cut <= |Image(history, base)|
    requires Position(history, base, o) + HEADER <= cut
    ensures var file, pos := Image(history, base)[..cut], Position(history, base, o);
      && OffsetAt(file, pos) == o && LengthAt(file, pos) == |history[o]|
      && (pos + HEADER + |history[o]| <= cut ==> file[pos + HEADER..pos + HEADER + |history[o]|] == history[o])
  {
    hide OffsetAt, LengthAt, Frame, Image, Writable;
    assert |history[o]| < U32_LIMIT && o < I64_LIMIT by { WritableAt(history, o); }
    var whole, pos := Image(history, base), Position(history, base, o);
    ImageSplit(history, base, o);
    ImageFrom(history, o);
    var tail := Image(history, o);
    var n := |history[o]|;
    FrameHeader(o, history[o], Image(history, o + 1));
    assert whole[pos..] == tail;
    HeaderFields(whole[..cut], pos, tail);
    if pos + HEADER + n <= cut {
      SliceOfCut(whole, cut, pos, HEADER, HEADER + n);
    }
  }

  lemma {:induction false} SliceOfCut(whole: Bytes, cut: nat, pos: nat, lo: nat, hi: nat)
    requires lo <= hi && pos + hi <= cut <= |whole|
    ensures whole[..cut][pos + lo..pos + hi] == whole[pos..][lo..hi]
  {}

  lemma {:induction false} HeaderFields(file: Bytes, pos: nat, tail: Bytes)
    requires pos + HEADER <= |file| && HEADER <= |tail|
    requires forall i :: 0 <= i < HEADER ==> file[pos + i] == tail[i]
    ensures OffsetAt(file, pos) == OffsetAt(tail, 0) && LengthAt(file, pos) == LengthAt(tail, 0)
  {
    assert file[pos..pos + 8] == tail[0..8];
    assert file[pos + 8..pos + HEADER] == tail[8..HEADER];
  }

  /** The two file reads of ReadAt. */
  function ReadRecord(file: Bytes, pos: nat): ReadResult {
    if pos + HEADER > |file| then ReadError
    else
      var n := LengthAt(file, pos);
      if pos + HEADER + n > |file| then ReadError else Payload(file[pos + HEADER..pos + HEADER + n])
  }

  // ----- recovery ------------------------------------------------------------------------

  /** The positions recovery visits: it skips a payload without looking whether it is there. */
  function Scan(file: Bytes, pos: nat): seq<nat>
    decreases |file| - pos
  {
    if pos + HEADER > |file| then [] else [pos] + Scan(file, pos + HEADER + LengthAt(file, pos))
  }

  method Recover(file: Bytes) returns (index: seq<nat>, base: int, next: int)
    ensures index == Scan(file, 0)
    ensures base == if index == [] then 0 else OffsetAt(file, 0)
    ensures next == base + |index|
  {
    hide OffsetAt, LengthAt;
    index, base, next := [], 0, 0;
    var pos := 0;
    while pos + HEADER <= |file|
      invariant Scan(file, 0) == index + Scan(file, pos)
      invariant index == [] <==> pos == 0
      invariant base == if index == [] then 0 else OffsetAt(file, 0)
      invariant next == base + |index|
      decreases |file| - pos
    {
      if index == [] { base, next := OffsetAt(file, pos), OffsetAt(file, pos); }
      index := index + [pos];
      pos := pos + HEADER + LengthAt(file, pos);
      next := next + 1;
    }
  }

  /** The positions of offsets `from`, ..., `to - 1`. */
  ghost function Positions(history: seq<Bytes>, base: nat, from: nat, to: nat): seq<nat>
    requires from <= to <= |history|
    decreases |history| - from
  {
    if from == to then [] else [Position(history, base, from)] + Positions(history, base, from + 1, to)
  }

  lemma {:induction false} PositionsAt(history: seq<Bytes>, base: nat, from: nat, to: nat, i: nat)
    requires from <= to <= |history|
    ensures |Positions(history, base, from, to)| == to - from
    ensures i < to - from ==> Positions(history, base, from, to)[i] == Position(history, base, from + i)
    decreases |history| - from
  {
    hide Position;
    if from < to { PositionsAt(history, base, from + 1, to, if i == 0 then 0 else i - 1); }
  }

  /** `to` is the first offset whose header is not whole in the first `cut` bytes. */
  ghost predicate HeadersWithin(history: seq<Bytes>, base: nat, cut: nat, to: nat) {
    && base <= to <= |history| && cut <= |Image(history, base)|
    && (to > base ==> Position(history, base, to - 1) + HEADER <= cut)
    && Position(history, base, to) + HEADER > cut
  }

  lemma {:induction false} ScanFrom(history: seq<Bytes>, base: nat, cut: nat, to: nat, o: nat)
    requires Writable(history) && HeadersWithin(history, base, cut, to) && base <= o <= to
    ensures Scan(Image(history, base)[..cut], Position(history, base, o)) == Positions(history, base, o, to)
    decreases |history| - o
  {
    hide LengthAt, OffsetAt, Image;
    var file := Image(history, base)[..cut];
    if o < to {
      PositionMonotone(history, base, o, to - 1);
      RecordAt(history, base, o, cut);
      PositionStep(history, base, o);
      ScanFrom(history, base, cut, to, o + 1);
    }
  }

  /** Recovery of a log cut at any byte indexes exactly the records whose header is whole. */
  lemma {:induction false} ScanOfCut(history: seq<Bytes>, base: nat, cut: nat, to: nat)
    requires Writable(history) && HeadersWithin(history, base, cut, to)
    ensures Scan(Image(history, base)[..cut], 0) == Positions(history, base, base, to)
    ensures to > base ==> HEADER <= cut && OffsetAt(Image(history, base)[..cut], 0) == base
  {
    hide Image, OffsetAt, Scan;
    PositionAtBase(history, base);
    ScanFrom(history, base, cut, to, base);
    if to > base {
      PositionMonotone(history, base, base, to - 1);
      RecordAt(history, base, base, cut);
    }
  }

  lemma {:induction false} WholeFile(history: seq<Bytes>, base: nat)
    requires base <= |history|
    ensures HeadersWithin(history, base, |Image(history, base)|, |history|)
    ensures Image(history, base)[..|Image(history, base)|] == Image(history, base)
  {
    var n := |history|;
    assert history[..n] == history;
    if n > base {
      PositionStep(history, base, n - 1);
    } else {
      assert Image(history, base) == [];
    }
  }

  /** How many headers fit below a cut. */
  ghost function Recovered(history: seq<Bytes>, base: nat, cut: nat, o: nat): (to: nat)
    requires base <= o <= |history| && cut <= |Image(history, base)|
    requires o > base ==> Position(history, base, o - 1) + HEADER <= cut
    ensures HeadersWithin(history, base, cut, to)
    decreases |history| - o
  {
    if o == |history| then
      (WholeFile(history, base); assert history[..o] == history; o)
    else if Position(history, base, o) + HEADER > cut then o
    else Recovered(history, base, cut, o + 1)
  }

  /** The cut falls strictly inside the payload of offset `o`. */
  ghost predicate CutsPayload(history: seq<Bytes>, base: nat, cut: nat, o: nat) {
    base <= o < |history| && Position(history, base, o) + HEADER <= cut < Position(history, base, o + 1)
  }

  /** The first `n` indexed records read back their own payloads. */
  ghost predicate ReadsBack(file: Bytes, index: seq<nat>, history: seq<Bytes>, base: nat, n: nat) {
    && n <= |index| && base + n <= |history|
    && forall i :: 0 <= i < n ==> ReadRecord(file, index[i]) == Payload(history[base + i])
  }

  lemma {:induction false} ReadsUpTo(history: seq<Bytes>, base: nat, cut: nat, to: nat, n: nat)
    requires Writable(history) && HeadersWithin(history, base, cut, to) && base + n <= to
    requires n > 0 && base + n == to ==> !CutsPayload(history, base, cut, to - 1)
    ensures ReadsBack(Image(history, base)[..cut], Positions(history, base, base, to), history, base, n)
  {
    hide Image, ReadRecord, HeadersWithin, CutsPayload, Position, Positions;
    HeadersBound(history, base, cut, to);
    PositionsAt(history, base, base, to, 0);
    forall i | 0 <= i < n
      ensures ReadRecord(Image(history, base)[..cut], Positions(history, base, base, to)[i]) == Payload(history[base + i])
    {
      PositionsAt(history, base, base, to, i);
      ReadOfCut(history, base, cut, to, base + i);
      OnlyLastCut(history, base, cut, to, base + i);
    }
  }

  /** After a crash that keeps only the first `cut` bytes, recovery assigns the offsets whose
      header survived, and every one of them reads back its own payload exactly when the cut
      did not fall inside a payload; otherwise the last one is indexed but unreadable. */
  lemma {:induction false} TornRecovery(history: seq<Bytes>, base: nat, cut: nat)
    requires Writable(history) && base <= |history| && cut <= |Image(history, base)|
    ensures var file := Image(history, base)[..cut];
      var index := Scan(file, 0);
      && base + |index| <= |history|
      && (index != [] ==> HEADER <= cut && OffsetAt(file, 0) == base)
      && (ReadsBack(file, index, history, base, |index|) <==> !exists o: nat :: CutsPayload(history, base, cut, o))
      && (index != [] ==> ReadsBack(file, index, history, base, |index| - 1))
  {
    hide Image, Scan, OffsetAt, HeadersWithin, CutsPayload, Position, Positions, ReadsBack, Writable;
    var to := Recovered(history, base, cut, base);
    HeadersBound(history, base, cut, to);
    ScanOfCut(history, base, cut, to);
    PositionsAt(history, base, base, to, 0);
    ReadsBackIff(history, base, cut, to);
  }

  lemma {:induction false} ReadsBackIff(history: seq<Bytes>, base: nat, cut: nat, to: nat)
    requires Writable(history) && HeadersWithin(history, base, cut, to)
    ensures var file, index := Image(history, base)[..cut], Positions(history, base, base, to);
      && base <= to
      && (ReadsBack(file, index, history, base, to - base) <==> !exists o: nat :: CutsPayload(history, base, cut, o))
      && (base < to ==> ReadsBack(file, index, history, base, to - base - 1))
  {
    hide Image, HeadersWithin, CutsPayload, Positions, ReadsBack, Writable;
    HeadersBound(history, base, cut, to);
    if base < to { ReadsUpTo(history, base, cut, to, to - base - 1); }
    if o: nat :| CutsPayload(history, base, cut, o) {
      LastUnreadable(history, base, cut, to, o);
    } else {
      ReadsUpTo(history, base, cut, to, to - base);
    }
  }

  lemma {:induction false} LastUnreadable(history: seq<Bytes>, base: nat, cut: nat, to: nat, o: nat)
    requires Writable(history) && HeadersWithin(history, base, cut, to) && CutsPayload(history, base, cut, o)
    ensures !ReadsBack(Image(history, base)[..cut], Positions(history, base, base, to), history, base, to - base)
  {
    hide Image, ReadRecord, HeadersWithin, Position, Positions;
    OnlyLastCut(history, base, cut, to, o);
    PositionsAt(history, base, base, to, o - base);
    ReadOfCut(history, base, cut, to, o);
  }

  lemma {:induction false} HeadersBound(history: seq<Bytes>, base: nat, cut: nat, to: nat)
    requires HeadersWithin(history, base, cut, to)
    ensures base <= to <= |history| && cut <= |Image(history, base)|
  {}

  lemma {:induction false} ReadOfCut(history: seq<Bytes>, base: nat, cut: nat, to: nat, o: nat)
    requires Writable(history) && HeadersWithin(history, base, cut, to) && base <= o < to
    ensures ReadRecord(Image(history, base)[..cut], Position(history, base, o)) ==
            if CutsPayload(history, base, cut, o) then ReadError else Payload(history[o])
  {
    hide Image, OffsetAt, LengthAt;
    PositionMonotone(history, base, o, to - 1);
    PositionStep(history, base, o);
    RecordAt(history, base, o, cut);
  }

  lemma {:induction false} OnlyLastCut(history: seq<Bytes>, base: nat, cut: nat, to: nat, o: nat)
    requires HeadersWithin(history, base, cut, to) && base <= o < |history|
    ensures CutsPayload(history, base, cut, o) ==> o == to - 1 && base <= o < to
  {
    hide Image;
    if o < to - 1 { PositionMonotone(history, base, o + 1, to - 1); }
    if o >= to { PositionMonotone(history, base, to, o); }
  }

  // ----- retention ------------------------------------------------------------------------

  /** The base after an append that makes `next` the next offset: above the cap, only 90% of
      it is kept. */
  function NextBase(base: nat, next: nat, cap: int): nat
    requires base < next
  {
    if cap > 0 && next - base > cap then next - (cap - cap / 10) else base
  }

  /** Retention keeps everything while that fits the cap (a cap of zero is none), and otherwise
      exactly the newest 90% of the cap: always the newest record, never more than the cap, and it
      never moves back. */
  lemma {:induction false} RetentionBounds(base: nat, next: nat, cap: int)
    requires base < next
    ensures base <= NextBase(base, next, cap) < next
    ensures cap <= 0 || next - base <= cap ==> NextBase(base, next, cap) == base
    ensures cap > 0 && next - base > cap ==> next - NextBase(base, next, cap) == cap - cap / 10
    ensures cap > 0 ==> next - NextBase(base, next, cap) <= cap
  {}

  /** The index without its first `drop` positions, counted from the first one kept. */
  ghost predicate Rebased(index: seq<nat>, drop: nat, newIndex: seq<nat>) {
    && drop < |index| && |newIndex| == |index| - drop
    && forall i :: 0 <= i < |newIndex| ==> index[drop] + newIndex[i] == index[drop + i]
  }

  ghost predicate NoneBelow(index: seq<nat>, drop: nat)
    requires drop < |index|
  {
    forall i :: drop <= i < |index| ==> index[drop] <= index[i]
  }

  method Rebase(index: seq<nat>, drop: nat) returns (newIndex: seq<nat>)
    requires drop < |index| && NoneBelow(index, drop)
    ensures Rebased(index, drop, newIndex)
  {
    newIndex := [];
    for i := drop to |index|
      invariant |newIndex| == i - drop
      invariant forall j :: 0 <= j < |newIndex| ==> index[drop] + newIndex[j] == index[drop + j]
    {
      newIndex := newIndex + [index[i] - index[drop]];
    }
  }

  /** The index of a file image. */
  ghost predicate Indexed(history: seq<Bytes>, base: nat, index: seq<nat>) {
    && base <= |history| && |index| == |history| - base
    && forall i :: 0 <= i < |index| ==> index[i] == Position(history, base, base + i)
  }

  lemma {:induction false} IndexedAppend(history: seq<Bytes>, base: nat, index: seq<nat>, payload: Bytes)
    requires Indexed(history, base, index)
    ensures Indexed(history + [payload], base, index + [|Image(history, base)|])
  {
    hide Image;
    var h' := history + [payload];
    forall i | 0 <= i < |index| ensures index[i] == Position(h', base, base + i) {
      PositionPrefix(history, payload, base, base + i);
    }
    assert h'[..|history|] == history;
  }

  lemma {:induction false} IndexedTrim(history: seq<Bytes>, base: nat, index: seq<nat>, drop: nat, index': seq<nat>)
    requires Indexed(history, base, index) && Rebased(index, drop, index')
    ensures Indexed(history, base + drop, index')
  {
    hide Position;
    var start := index[drop];
    assert start == Position(history, base, base + drop);
    forall i | 0 <= i < |index'| ensures index'[i] == Position(history, base + drop, base + drop + i) {
      assert start + index'[i] == index[drop + i];
      PositionShift(history, base, base + drop, base + drop + i);
    }
  }

  lemma {:induction false} IndexedOrder(history: seq<Bytes>, base: nat, index: seq<nat>, drop: nat)
    requires Indexed(history, base, index) && drop < |index|
    ensures NoneBelow(index, drop)
    ensures index[drop] <= |Image(history, base)|
    ensures Image(history, base)[index[drop]..] == Image(history, base + drop)
  {
    hide Image;
    forall i | drop <= i < |index| ensures index[drop] <= index[i] {
      PositionMonotone(history, base, base + drop, base + i);
    }
    ImageSplit(history, base, base + drop);
  }

  /** The retained bytes, copied to a fresh file, and their index. */
  method DropHead(file: Bytes, index: seq<nat>, drop: nat, ghost history: seq<Bytes>, ghost base: nat)
    returns (newFile: Bytes, newIndex: seq<nat>)
    requires drop < |index| && Indexed(history, base, index) && Persisted(history, base, file)
    ensures Indexed(history, base + drop, newIndex) && Persisted(history, base + drop, newFile)
  {
    hide Image, Indexed, Position, Rebased, NoneBelow, Writable;
    IndexLength(history, base, index);
    IndexedOrder(history, base, index, drop);
    newIndex := Rebase(index, drop);
    newFile := file[index[drop]..];
    IndexedTrim(history, base, index, drop, newIndex);
  }

  // ----- the partition -----------------------------------------------------------------------

  /** What survives closing or crashing between operations. */
  ghost predicate Persisted(history: seq<Bytes>, base: nat, file: Bytes) {
    && Writable(history) && file == Image(history, base)
    && base <= |history| && (history == [] ==> base == 0) && (history != [] ==> base < |history|)
  }

  class Partition {
    const maxRecords: int
    var file: Bytes
    var index: seq<nat>
    var offset: int
    var baseOffset: int
    /** Every payload ever appended, in offset order. */
    ghost var history: seq<Bytes>

    ghost predicate Valid()
      reads this
    {
      && 0 <= baseOffset && Persisted(history, baseOffset, file)
      && offset == |history| && Indexed(history, baseOffset, index)
    }

    /** openPartition: whatever the file's head was trimmed to, opening it resumes at the next
        offset of the history. A new file is the history without payloads. */
    constructor (maxRecords: int, file: Bytes, ghost history: seq<Bytes>, ghost base: nat)
      requires Persisted(history, base, file)
      ensures Valid() && this.maxRecords == maxRecords && this.history == history
      ensures baseOffset == base && this.file == file
    {
      this.maxRecords := maxRecords;
      this.file := file;
      var index, b, next := Recover(file);
      this.index, this.baseOffset, this.offset := index, b, next;
      this.history := history;
      new;
      hide Image, Scan, OffsetAt;
      RecoverWhole(history, base, index);
    }

    /** Append: the payload takes the next offset; then the head may be trimmed. */
    method Append(payload: Bytes) returns (off: int)
      requires Valid() && |payload| < U32_LIMIT && |history| + 1 < I64_LIMIT
      modifies this
      ensures Valid() && off == |old(history)| && history == old(history) + [payload]
      ensures baseOffset == NextBase(old(baseOffset), |history|, maxRecords)
      ensures maxRecords <= 0 || |history| - old(baseOffset) <= maxRecords ==> baseOffset == old(baseOffset)
      ensures maxRecords > 0 && |history| - old(baseOffset) > maxRecords ==>
        |history| - baseOffset == maxRecords - maxRecords / 10
    {
      off := offset;
      var pos := |file|;
      hide Image, Indexed, Frame;
      ImageSnoc(history, payload, baseOffset);
      IndexedAppend(history, baseOffset, index, payload);
      file := file + Frame(off, payload);
      index := index + [pos];
      offset := offset + 1;
      history := history + [payload];
      IndexLength(history, baseOffset, index);
      if maxRecords > 0 && |index| > maxRecords {
        var target := maxRecords - maxRecords / 10;
        var drop := |index| - target;
        if drop > 0 { TrimLocked(drop); }
      }
    }

    /** trimLocked: drop the oldest records and rebase the index; nothing to do outside
        1 .. len(index) - 1. */
    method TrimLocked(drop: int)
      requires Valid()
      modifies this
      ensures Valid() && history == old(history)
      ensures baseOffset == if 0 < drop < |old(index)| then old(baseOffset) + drop else old(baseOffset)
    {
      if drop <= 0 || drop >= |index| { return; }
      hide Persisted, Indexed;
      IndexLength(history, baseOffset, index);
      var newFile, newIndex := DropHead(file, index, drop, history, baseOffset);
      file, index := newFile, newIndex;
      baseOffset := baseOffset + drop;
    }

    /** ReadAt: exactly the retained offsets answer, each with the payload appended there. */
    method ReadAt(o: int) returns (r: ReadResult)
      requires Valid()
      ensures r == if baseOffset <= o < |history| then Payload(history[o]) else EndOfLog
    {
      hide Image, ReadRecord;
      if o < baseOffset || o >= offset { return EndOfLog; }
      r := ReadRecord(file, index[o - baseOffset]);
      WholeFile(history, baseOffset);
      ReadOfCut(history, baseOffset, |file|, |history|, o);
      NotCut(history, baseOffset, o);
    }
  }

  lemma {:induction false} IndexLength(history: seq<Bytes>, base: nat, index: seq<nat>)
    requires Indexed(history, base, index)
    ensures base <= |history| && |index| == |history| - base
  {}

  lemma {:induction false} NotCut(history: seq<Bytes>, base: nat, o: nat)
    requires base <= |history|
    ensures !CutsPayload(history, base, |Image(history, base)|, o)
  {
    hide Image;
    if base <= o < |history| { PositionBound(history, base, o + 1); }
  }

  /** Opening a whole-record file finds its base and every record. */
  lemma {:induction false} RecoverWhole(history: seq<Bytes>, base: nat, index: seq<nat>)
    requires Writable(history) && base <= |history| && index == Scan(Image(history, base), 0)
    ensures Indexed(history, base, index)
    ensures index != [] ==> HEADER <= |Image(history, base)| && OffsetAt(Image(history, base), 0) == base
  {
    hide Image, Scan, OffsetAt;
    WholeFile(history, base);
    ScanOfCut(history, base, |Image(history, base)|, |history|);
    PositionsAt(history, base, base, |history|, 0);
    forall i | 0 <= i < |index| ensures index[i] == Position(history, base, base + i) {
      PositionsAt(history, base, base, |history|, i);
    }
  }

  // ----- partition keys -------------------------------------------------------------------------

  /** strings.LastIndex of an underscore. */
  function LastUnderscore(s: string): (i: int)
    ensures -1 <= i < |s|
    ensures i >= 0 ==> s[i] == '_' && '_' !in s[i + 1..]
    ensures i < 0 <==> '_' !in s
  {
    if s == [] then -1
    else if s[|s| - 1] == '_' then |s| - 1
    else
      var i := LastUnderscore(s[..|s| - 1]);
      assert s == s[..|s| - 1] + [s[|s| - 1]];
      assert i >= 0 ==> s[i + 1..] == s[..|s| - 1][i + 1..] + [s[|s| - 1]];
      i
  }

  function OrAll(s: string): string { if s == "" then "ALL" else s }

  function PartitionKey(topic: string, region: string, tier: string): string {
    topic + "_" + OrAll(region) + "_" + OrAll(tier)
  }

  function SplitKey(key: string): (string, string, string) {
    var last := LastUnderscore(key);
    if last < 0 then (key, "ALL", "ALL")
    else
      var tier, rest := key[last + 1..], key[..last];
      var prev := LastUnderscore(rest);
      if prev < 0 then (rest, "ALL", tier) else (rest[..prev], rest[prev + 1..], tier)
  }

  lemma {:induction false} LastUnderscoreOf(a: string, b: string)
    requires '_' !in b
    ensures LastUnderscore(a + "_" + b) == |a|
  {
    var s := a + "_" + b;
    assert s[|a|] == '_' && s[|a| + 1..] == b;
  }

  /** splitKey undoes partitionKey exactly when region and tier contain no underscore;
      topics may contain any. */
  lemma {:induction false} SplitKeyRoundTrip(topic: string, region: string, tier: string)
    ensures SplitKey(PartitionKey(topic, region, tier)) == (topic, OrAll(region), OrAll(tier))
            <==> '_' !in region && '_' !in tier
  {
    hide LastUnderscore;
    var r, t := OrAll(region), OrAll(tier);
    if '_' !in r && '_' !in t {
      LastUnderscoreOf(topic + "_" + r, t);
      LastUnderscoreOf(topic, r);
      SplitAtKnown(topic, r, t);
    } else {
      PartsHaveNoUnderscore(PartitionKey(topic, region, tier));
    }
  }

  lemma {:induction false} SplitAtKnown(topic: string, r: string, t: string)
    requires LastUnderscore(topic + "_" + r + "_" + t) == |topic + "_" + r| && LastUnderscore(topic + "_" + r) == |topic|
    ensures SplitKey(topic + "_" + r + "_" + t) == (topic, r, t)
  {
    hide LastUnderscore;
    var key := topic + "_" + r + "_" + t;
    var head := topic + "_" + r;
    assert key[..|head|] == head && key[|head| + 1..] == t;
    assert head[..|topic|] == topic && head[|topic| + 1..] == r;
  }

  lemma {:induction false} PartsHaveNoUnderscore(key: string)
    ensures '_' !in SplitKey(key).1 && '_' !in SplitKey(key).2
  {
    hide LastUnderscore;
  }

  /** Keys without enough underscores are read as a topic, or a topic and a tier. */
  lemma {:induction false} SplitKeyShort(topic: string, tier: string)
    requires '_' !in topic && '_' !in tier
    ensures SplitKey(topic) == (topic, "ALL", "ALL") && SplitKey(topic + "_" + tier) == (topic, "ALL", tier)
  {
    hide LastUnderscore;
    assert LastUnderscore(topic) < 0;
    LastUnderscoreOf(topic, tier);
    assert (topic + "_" + tier)[..|topic|] == topic && (topic + "_" + tier)[|topic| + 1..] == tier;
  }

  /** Conversely, splitting a key and joining its parts gives the key back exactly if it has two
      underscores and its last two parts are not empty. */
  lemma {:induction false} JoinAfterSplit(key: string)
    ensures var parts := SplitKey(key);
      PartitionKey(parts.0, parts.1, parts.2) == key
      <==> '_' in key && '_' in key[..LastUnderscore(key)] && parts.1 != "" && parts.2 != ""
  {
    hide LastUnderscore;
    var last := LastUnderscore(key);
    var parts := SplitKey(key);
    if last >= 0 {
      var rest := key[..last];
      var prev := LastUnderscore(rest);
      assert key == rest + "_" + key[last + 1..];
      if prev >= 0 {
        assert rest == rest[..prev] + "_" + rest[prev + 1..];
        assert parts.1 != "" && parts.2 != "" ==> PartitionKey(parts.0, parts.1, parts.2) == key;
      }
    }
    assert |PartitionKey(parts.0, parts.1, parts.2)| == |parts.0| + |OrAll(parts.1)| + |OrAll(parts.2)| + 2;
  }
}
