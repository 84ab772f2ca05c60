/**
 The clocks a processor stamps on its flushes (processor/main.py): the merged clock of all
 events seen, with the processor's own component set to the flush number. Within one lifetime
 they form a strictly increasing chain, so the store keeps the last flush of every key however
 the writes are ordered or repeated.
 */
module FlushClock {
  import opened BigEndian
  import opened VectorClock
  import opened StatKey
  import opened LsmSafety
  import LsmMachine
  import opened Reorder

  datatype Progress = Progress(merged: Clock, flushSeq: nat, flushes: seq<Clock>)

  /** An event is merged, or a flush is attempted with or without buffered matches. */
  datatype Op = Event(clock: Clock) | Flush(buffered: nat)

  const INITIAL := Progress(map[], 0, [])

  function Stamp(merged: Clock, node: Bytes, seqNo: int): Clock {
    merged[node := seqNo]
  }

  function Next(p: Progress, node: Bytes, op: Op): Progress {
    match op
    case Event(c) => p.(merged := Raised(p.merged, c))
    case Flush(buffered) =>
      if buffered == 0 then p
      else Progress(p.merged, p.flushSeq + 1, p.flushes + [Stamp(p.merged, node, p.flushSeq + 1)])
  }

  function Lifetime(node: Bytes, ops: seq<Op>): Progress {
    if ops == [] then INITIAL else Next(Lifetime(node, ops[..|ops| - 1]), node, ops[|ops| - 1])
  }

  class Processor {
    const nodeId: Bytes
    var mergedClock: Clock
    var flushSeq: nat
    /** The clocks of all flushes so far. */
    ghost var flushes: seq<Clock>

    ghost function Now(): Progress
      reads this
    {
      Progress(mergedClock, flushSeq, flushes)
    }

    constructor (nodeId: Bytes)
      ensures this.nodeId == nodeId && Now() == INITIAL
    {
      this.nodeId := nodeId;
      mergedClock, flushSeq, flushes := map[], 0, [];
    }

    method MergeClock(event: Clock)
      modifies this
      ensures Now() == Next(old(Now()), nodeId, Event(event))
    {
      mergedClock := Deliver(mergedClock, event);
    }

    /** _flush: without buffered matches nothing happens, otherwise a new clock is stamped. */
    method Flush(buffered: nat) returns (clock: Option<Clock>)
      modifies this
      ensures Now() == Next(old(Now()), nodeId, Op.Flush(buffered))
      ensures buffered == 0 ==> clock == None && Now() == old(Now())
      ensures buffered > 0 ==> clock.Some? && flushSeq == old(flushSeq) + 1 && flushes == old(flushes) + [clock.value]
      ensures buffered > 0 ==> clock.value == old(mergedClock)[nodeId := flushSeq]
    {
      if buffered == 0 { return None; }
      flushSeq := flushSeq + 1;
      clock := Some(mergedClock[nodeId := flushSeq]);
      flushes := flushes + [clock.value];
    }
  }

  // ----- the chain of clocks -----------------------------------------------------------------

  ghost predicate StrictlyAbove(a: Clock, b: Clock) {
    Dominates(a, b) && !Dominates(b, a)
  }

  /** Each stamp so far lies below every later one, and below whatever comes next. */
  ghost predicate Climbing(p: Progress, node: Bytes) {
    && (forall i :: 0 <= i < |p.flushes| ==> BelowNext(p, node, p.flushes[i]))
    && (forall i, j :: 0 <= i < j < |p.flushes| ==> StrictlyAbove(p.flushes[j], p.flushes[i]))
    && (forall n <- p.merged.Keys :: p.merged[n] > 0)
    && (forall i :: 0 <= i < |p.flushes| ==> NonNegative(p.flushes[i]))
  }

  ghost predicate BelowNext(p: Progress, node: Bytes, c: Clock) {
    node in c && c[node] <= p.flushSeq && forall n <- c.Keys :: n != node ==> c[n] <= At(p.merged, n)
  }

  lemma {:induction false} EventKeeps(p: Progress, node: Bytes, c: Clock)
    requires Climbing(p, node)
    ensures Climbing(Next(p, node, Event(c)), node)
  {
    var p' := Next(p, node, Event(c));
    forall n ensures At(p.merged, n) <= At(p'.merged, n) { RaisedAt(p.merged, c, n); }
    forall i | 0 <= i < |p'.flushes| ensures BelowNext(p', node, p'.flushes[i]) {
      assert BelowNext(p, node, p.flushes[i]);
    }
  }

  lemma {:induction false} StampAbove(p: Progress, node: Bytes, c: Clock)
    requires BelowNext(p, node, c)
    ensures StrictlyAbove(Stamp(p.merged, node, p.flushSeq + 1), c)
  {
    var s := Stamp(p.merged, node, p.flushSeq + 1);
    assert node in s && At(c, node) < s[node];
  }

  lemma {:induction false} FlushKeeps(p: Progress, node: Bytes)
    requires Climbing(p, node)
    ensures Climbing(Next(p, node, Flush(1)), node)
  {
    hide StrictlyAbove;
    var p' := Next(p, node, Flush(1));
    var n := |p.flushes|;
    forall i | 0 <= i <= n ensures BelowNext(p', node, p'.flushes[i]) {
      if i < n { assert BelowNext(p, node, p.flushes[i]); }
    }
    forall i | 0 <= i < n ensures StrictlyAbove(p'.flushes[n], p'.flushes[i]) {
      StampAbove(p, node, p.flushes[i]);
    }
  }

  lemma {:induction false} LifetimeClimbs(node: Bytes, ops: seq<Op>)
    ensures Climbing(Lifetime(node, ops), node)
  {
    if ops != [] {
      hide Climbing;
      var n := |ops| - 1;
      var p := Lifetime(node, ops[..n]);
      LifetimeClimbs(node, ops[..n]);
      match ops[n]
      case Event(c) => EventKeeps(p, node, c);
      case Flush(buffered) =>
        FlushKeeps(p, node);
        assert buffered != 0 ==> Next(p, node, ops[n]) == Next(p, node, Flush(1));
    } else {
      assert Climbing(INITIAL, node);
    }
  }

  /** The highest number of a node among the events of a run. */
  function HighestSeen(ops: seq<Op>, n: Bytes): int {
    if ops == [] then 0
    else
      var before, op := HighestSeen(ops[..|ops| - 1], n), ops[|ops| - 1];
      if op.Event? && At(op.clock, n) > before then At(op.clock, n) else before
  }

  /** The merged clock holds exactly the highest number seen of every node. */
  lemma {:induction false} MergedIsHighest(node: Bytes, ops: seq<Op>, n: Bytes)
    ensures At(Lifetime(node, ops).merged, n) == HighestSeen(ops, n)
  {
    if ops != [] {
      var k := |ops| - 1;
      MergedIsHighest(node, ops[..k], n);
      HighestSeenBound(ops[..k], n);
      if ops[k].Event? { RaisedAt(Lifetime(node, ops[..k]).merged, ops[k].clock, n); }
    }
  }

  lemma {:induction false} HighestSeenBound(ops: seq<Op>, n: Bytes)
    ensures HighestSeen(ops, n) >= 0
  {
    if ops != [] { HighestSeenBound(ops[..|ops| - 1], n); }
  }

  /** A flush is stamped with the highest event numbers seen so far and its own number. */
  lemma {:induction false} FlushReflectsEvents(node: Bytes, ops: seq<Op>, buffered: nat, n: Bytes)
    requires buffered > 0
    ensures var before, after := Lifetime(node, ops).flushes, Lifetime(node, ops + [Flush(buffered)]).flushes;
      && |after| == |before| + 1 && before <= after
      && At(after[|before|], n) == if n == node then |before| + 1 else HighestSeen(ops, n)
  {
    assert (ops + [Flush(buffered)])[..|ops|] == ops;
    FlushNumbers(node, ops);
    MergedIsHighest(node, ops, n);
  }

  /** Over one lifetime, every flush's clock strictly dominates every earlier one's, whatever
      events arrive in between. */
  lemma {:induction false} FlushesClimb(node: Bytes, ops: seq<Op>, i: nat, j: nat)
    requires i < j < |Lifetime(node, ops).flushes|
    ensures var f := Lifetime(node, ops).flushes; StrictlyAbove(f[j], f[i]) && NonNegative(f[i]) && NonNegative(f[j])
  {
    LifetimeClimbs(node, ops);
  }

  /** So pickNewer keeps the later flush in either argument order, whatever the sample sizes. */
  lemma {:induction false} LaterFlushWins(node: Bytes, ops: seq<Op>, i: nat, j: nat, earlier: StatEntry, later: StatEntry)
    requires i < j < |Lifetime(node, ops).flushes|
    requires earlier.clock == Lifetime(node, ops).flushes[i] && later.clock == Lifetime(node, ops).flushes[j]
    ensures Newer(earlier, later) == later && Newer(later, earlier) == later
    ensures !AtLeast(earlier, later)
  {
    FlushesClimb(node, ops, i, j);
    StrictDominanceRaisesSum(later.clock, earlier.clock);
  }

  /** The store ends with the last flush: in any run of the store, flushes, compactions and
      cached reads included, whose writes of a key were all stamped within one lifetime, one
      entry per flush, a read returns the entry of the latest flush, whatever order the writes
      arrived in and however often. */
  lemma {:induction false} StoreEndsWithLastFlush(c: Codec, run: seq<LsmMachine.Step>, k: Key,
                                                  node: Bytes, ops: seq<Op>, last: nat, e: StatEntry)
    requires LsmMachine.Exec(c, run).Some? && CrashFree(run) && LsmMachine.Exec(c, run).value.phase.Idle?
    requires var written := LsmMachine.Exec(c, run).value.written;
      && last < |Lifetime(node, ops).flushes| && e in written && EntryKey(e) == k
      && e.clock == Lifetime(node, ops).flushes[last]
      && forall x <- written :: EntryKey(x) == k ==> x == e || StampedBefore(x, node, ops, last)
    ensures LsmMachine.Read(LsmMachine.Exec(c, run).value, k) == Some(e)
  {
    hide LsmMachine.Exec, LsmMachine.Read, CrashFree, Lifetime, AtLeast;
    ReadFindsBestEverWritten(c, run, k);
    var x := LsmMachine.Read(LsmMachine.Exec(c, run).value, k).value;
    assert AtLeast(x, e);
    if x != e {
      var i: nat :| i < last && i < |Lifetime(node, ops).flushes| && x.clock == Lifetime(node, ops).flushes[i];
      LaterFlushWins(node, ops, i, last, x, e);
    }
  }

  /** The entry carries the clock of a flush before number `last`. */
  ghost predicate StampedBefore(x: StatEntry, node: Bytes, ops: seq<Op>, last: nat) {
    exists i: nat :: i < last && i < |Lifetime(node, ops).flushes| && x.clock == Lifetime(node, ops).flushes[i]
  }

  /** The same for a fold of pickNewer over the writes in arrival order. */
  lemma {:induction false} FoldEndsWithLastFlush(node: Bytes, ops: seq<Op>, es: seq<StatEntry>, last: nat, e: StatEntry)
    requires last < |Lifetime(node, ops).flushes| && e in es && e.clock == Lifetime(node, ops).flushes[last]
    requires forall x <- es :: x == e || StampedBefore(x, node, ops, last)
    ensures Fold(es) == Some(e)
  {
    LifetimeClimbs(node, ops);
    forall x | x in es ensures Sane(x) {}
    var m := FoldIsFirstMax(es);
    assert es[m] in es;
    var p :| 0 <= p < |es| && es[p] == e;
    assert AtLeast(es[m], e);
    if es[m] != e {
      var i: nat :| i < last && i < |Lifetime(node, ops).flushes| && es[m].clock == Lifetime(node, ops).flushes[i];
      LaterFlushWins(node, ops, i, last, es[m], e);
    }
  }

  // ----- restarts ---------------------------------------------------------------------------------

  /** The other components of a flush clock: how far the events had progressed. */
  ghost function Progressed(c: Clock, node: Bytes): int {
    Sum(c - {node})
  }

  /** A flush clock weighs the events' progress plus the flush's number within its lifetime. */
  lemma {:induction false} FlushSum(node: Bytes, ops: seq<Op>, i: nat)
    requires i < |Lifetime(node, ops).flushes|
    ensures var f := Lifetime(node, ops).flushes[i];
      node in f && f[node] == i + 1 && Sum(f) == Progressed(f, node) + i + 1
  {
    FlushNumbers(node, ops);
    var f := Lifetime(node, ops).flushes[i];
    SumOnSplit(f, f.Keys, node);
    SumOnAgrees(f, f - {node}, f.Keys - {node});
  }

  lemma {:induction false} SumOnAgrees(a: Clock, b: Clock, nodes: set<Bytes>)
    requires forall n <- nodes :: At(a, n) == At(b, n)
    ensures SumOn(a, nodes) == SumOn(b, nodes)
  {
    SumOnMonotone(a, b, nodes);
    SumOnMonotone(b, a, nodes);
  }

  lemma {:induction false} FlushNumbers(node: Bytes, ops: seq<Op>)
    ensures var p := Lifetime(node, ops);
      |p.flushes| == p.flushSeq && forall i :: 0 <= i < |p.flushes| ==> node in p.flushes[i] && p.flushes[i][node] == i + 1
  {
    if ops != [] { FlushNumbers(node, ops[..|ops| - 1]); }
  }

  /** An entry wins over another when pickNewer keeps it in both argument orders. */
  ghost predicate Wins(winner: StatEntry, loser: StatEntry) {
    Newer(loser, winner) == winner && Newer(winner, loser) == winner
  }

  /** After a restart the count of flushes starts over while events go on. A flush of the new
      lifetime wins over a different entry stored in the old one exactly when its clock sum is
      larger, or equal with a larger sample. */
  lemma {:induction false} RestartedFlushWins(node: Bytes, ops1: seq<Op>, ops2: seq<Op>, i: nat, j: nat, stored: StatEntry, restarted: StatEntry)
    requires i < |Lifetime(node, ops1).flushes| && j < |Lifetime(node, ops2).flushes|
    requires stored.clock == Lifetime(node, ops1).flushes[i] && restarted.clock == Lifetime(node, ops2).flushes[j]
    ensures Wins(restarted, stored) <==>
      || Sum(restarted.clock) > Sum(stored.clock)
      || (Sum(restarted.clock) == Sum(stored.clock) && restarted.sampleSize > stored.sampleSize)
      || restarted == stored
  {
    LifetimeClimbs(node, ops1);
    LifetimeClimbs(node, ops2);
    hide Lifetime;
    NewerIsRankMax(stored, restarted);
    NewerIsRankMax(restarted, stored);
  }

  ghost predicate AlwaysWins(restarted: Clock, stored: Clock) {
    forall a: StatEntry, b: StatEntry | a.clock == stored && b.clock == restarted :: Wins(b, a)
  }

  /** It wins whatever the sample sizes exactly when the events progressed by more than the
      flush count fell back. */
  lemma {:induction false} RestartedFlushAlwaysWins(node: Bytes, ops1: seq<Op>, ops2: seq<Op>, i: nat, j: nat)
    requires i < |Lifetime(node, ops1).flushes| && j < |Lifetime(node, ops2).flushes|
    ensures var stored, restarted := Lifetime(node, ops1).flushes[i], Lifetime(node, ops2).flushes[j];
      AlwaysWins(restarted, stored) <==> Progressed(restarted, node) - Progressed(stored, node) > i - j
  {
    hide Lifetime, Wins, Progressed, Sum;
    FlushSum(node, ops1, i);
    FlushSum(node, ops2, j);
    var stored, restarted := Lifetime(node, ops1).flushes[i], Lifetime(node, ops2).flushes[j];
    forall a: StatEntry, b: StatEntry | a.clock == stored && b.clock == restarted && Sum(restarted) > Sum(stored) ensures Wins(b, a) {
      RestartedFlushWins(node, ops1, ops2, i, j, a, b);
    }
    if Sum(restarted) <= Sum(stored) {
      var a, b := Probe(stored, 1), Probe(restarted, 0);
      RestartedFlushWins(node, ops1, ops2, i, j, a, b);
    }
  }

  /** One event before each of three flushes. */
  function OldLife(crawler: Bytes): seq<Op> {
    [Event(map[crawler := 1]), Flush(1)] + [Event(map[crawler := 2]), Flush(1)] + [Event(map[crawler := 3]), Flush(1)]
  }

  /** The next event and a flush. */
  function NewLife(crawler: Bytes): seq<Op> {
    [Event(map[crawler := 4]), Flush(1)]
  }

  lemma {:induction false} NothingYet(node: Bytes)
    ensures Lifetime(node, []) == INITIAL
  {}

  lemma {:induction false} LivesAre(crawler: Bytes)
    ensures OldLife(crawler) ==
      [] + [Event(map[crawler := 1]), Flush(1)] + [Event(map[crawler := 2]), Flush(1)] + [Event(map[crawler := 3]), Flush(1)]
    ensures NewLife(crawler) == [] + [Event(map[crawler := 4]), Flush(1)]
  {}

  lemma {:induction false} LivesFlushes(node: Bytes, crawler: Bytes)
    requires node != crawler
    ensures |Lifetime(node, OldLife(crawler)).flushes| == 3
    ensures Lifetime(node, OldLife(crawler)).flushes[2] == map[crawler := 3, node := 3]
    ensures Lifetime(node, NewLife(crawler)).flushes == [map[crawler := 4, node := 1]]
  {
    NothingYet(node);
    hide Lifetime, OldLife, NewLife, Next;
    var one := Round(node, crawler, [], 1);
    var two := Round(node, crawler, one, 2);
    var three := Round(node, crawler, two, 3);
    var four := Round(node, crawler, [], 4);
    LivesAre(crawler);
    assert three == OldLife(crawler) && four == NewLife(crawler);
  }

  /** A loss: a processor flushes after each of three events, restarts, and flushes after the
      next event. Its old third flush beats this newer one, in either order, with any sample
      sizes. */
  lemma {:induction false} RestartLosesFlushes(node: Bytes, crawler: Bytes)
    requires node != crawler
    ensures var stored, restarted := Lifetime(node, OldLife(crawler)).flushes, Lifetime(node, NewLife(crawler)).flushes;
      |stored| == 3 && |restarted| == 1 && AlwaysWins(stored[2], restarted[0])
  {
    LivesFlushes(node, crawler);
    hide Lifetime, OldLife, NewLife, AlwaysWins, Progressed;
    RoundProgress(node, crawler, 3, 3);
    RoundProgress(node, crawler, 4, 1);
    RestartedFlushAlwaysWins(node, NewLife(crawler), OldLife(crawler), 0, 2);
  }

  /** One more event of the crawler and a flush. */
  lemma {:induction false} Round(node: Bytes, crawler: Bytes, ops: seq<Op>, q: nat) returns (ops': seq<Op>)
    requires node != crawler && q > 0
    requires Lifetime(node, ops).merged.Keys <= {crawler} && At(Lifetime(node, ops).merged, crawler) < q
    ensures ops' == ops + [Event(map[crawler := q]), Flush(1)]
    ensures var p := Lifetime(node, ops);
      Lifetime(node, ops') == Progress(map[crawler := q], p.flushSeq + 1, p.flushes + [map[crawler := q, node := p.flushSeq + 1]])
  {
    var event := Event(map[crawler := q]);
    var p := Lifetime(node, ops);
    assert Raised(p.merged, map[crawler := q]) == map[crawler := q];
    ops' := ops + [event] + [Flush(1)];
    assert (ops + [event])[..|ops|] == ops && ops'[..|ops| + 1] == ops + [event];
  }

  lemma {:induction false} RoundProgress(node: Bytes, crawler: Bytes, q: int, n: int)
    requires node != crawler
    ensures Progressed(map[crawler := q, node := n], node) == q
  {
    var c: Clock := map[crawler := q];
    assert map[crawler := q, node := n] - {node} == c && c.Keys == {crawler};
    SumOnSplit(c, {crawler}, crawler);
    assert {crawler} - {crawler} == {};
  }
}
