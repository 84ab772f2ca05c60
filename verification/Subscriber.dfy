/**
 The Subscribe loop (broker/broker.go) interleaved with appends and the trims they trigger.
 Each access to the partition takes its lock once, so each is one step; between two of them
 any number of appends may happen. By `Partitions.Partition.ReadAt` and `Append` a partition is
 its payload history and its base offset.
 */
module Subscriber {
  import opened BigEndian
  import opened Partitions

  datatype Delivery = Delivery(offset: nat, payload: Bytes)

  /** Where the loop stands: at its head, past the base check, past the end check, or holding
      a payload that the token bucket or the stream still delays. */
  datatype Phase = Top | BaseChecked | Reading | Sending(payload: Bytes)

  datatype State = State(
    cap: int, history: seq<Bytes>, base: nat,
    phase: Phase, start: nat, cursor: nat, delivered: seq<Delivery>)

  datatype Step = Append(payload: Bytes) | CheckBase | CheckEnd | ReadNext | Send

  /** A subscriber that asks for `offset` of an already running partition. */
  function Subscribed(cap: int, history: seq<Bytes>, base: nat, offset: int): State {
    var start := if offset < 0 then 0 else offset;
    State(cap, history, base, Top, start, start, [])
  }

  /** What `Partition.ReadAt` answers. */
  function ReadAt(s: State, o: nat): ReadResult {
    if s.base <= o < |s.history| then Payload(s.history[o]) else EndOfLog
  }

  predicate Enabled(s: State, step: Step) {
    match step
    case Append(_) => s.base <= |s.history|
    case CheckBase => s.phase.Top?
    case CheckEnd => s.phase.BaseChecked?
    case ReadNext => s.phase.Reading?
    case Send => s.phase.Sending?
  }

  function Apply(s: State, step: Step): State
    requires Enabled(s, step)
  {
    match step
    case Append(p) => s.(history := s.history + [p], base := NextBase(s.base, |s.history| + 1, s.cap))
    case CheckBase => s.(phase := BaseChecked, cursor := if s.cursor < s.base then s.base else s.cursor)
    case CheckEnd => s.(phase := if s.cursor >= |s.history| then Top else Reading)
    case ReadNext =>
      (match ReadAt(s, s.cursor)
       case Payload(p) => s.(phase := Sending(p))
       case _ => s.(phase := Top))
    case Send => s.(phase := Top, cursor := s.cursor + 1, delivered := s.delivered + [Delivery(s.cursor, s.phase.payload)])
  }

  function Exec(s: State, run: seq<Step>): Option<State> {
    if run == [] then Some(s)
    else
      var before := Exec(s, run[..|run| - 1]);
      if before.Some? && Enabled(before.value, run[|run| - 1]) then Some(Apply(before.value, run[|run| - 1])) else None
  }

  // ----- safety ---------------------------------------------------------------------------

  ghost predicate Delivered(ds: seq<Delivery>, o: nat) {
    exists i :: 0 <= i < |ds| && ds[i].offset == o
  }

  /** Offsets strictly increase and stay below the cursor; payloads are the original ones. */
  ghost predicate Faithful(s: State) {
    && (forall i, j :: 0 <= i < j < |s.delivered| ==> s.delivered[i].offset < s.delivered[j].offset)
    && (forall d <- s.delivered :: s.start <= d.offset < s.cursor && d.offset < |s.history| && d.payload == s.history[d.offset])
  }

  /** Whatever the cursor passed was delivered, unless it has been trimmed. */
  ghost predicate NoGaps(s: State) {
    forall o: nat :: s.start <= o < s.cursor ==> Delivered(s.delivered, o) || o < s.base
  }

  ghost predicate Inv(s: State) {
    && s.base <= |s.history| && s.start <= s.cursor && Faithful(s) && NoGaps(s)
    && (s.phase.Sending? ==> s.cursor < |s.history| && s.phase.payload == s.history[s.cursor])
  }

  lemma {:induction false} SendKeeps(s: State)
    requires Inv(s) && s.phase.Sending?
    ensures Inv(Apply(s, Send))
  {
    var s' := Apply(s, Send);
    var n := |s.delivered|;
    forall o: nat | s'.start <= o < s'.cursor ensures Delivered(s'.delivered, o) || o < s'.base {
      if o == s.cursor {
        assert s'.delivered[n].offset == o;
      } else if Delivered(s.delivered, o) {
        var i :| 0 <= i < n && s.delivered[i].offset == o;
        assert s'.delivered[i].offset == o;
      }
    }
    forall i | 0 <= i < n ensures s'.delivered[i].offset < s'.delivered[n].offset {
      assert s.delivered[i] in s.delivered;
    }
  }

  /** Every step keeps the invariant; the history only grows and the base only advances. */
  lemma {:induction false} StepKeeps(s: State, step: Step)
    requires Inv(s) && Enabled(s, step)
    ensures var s' := Apply(s, step);
      Inv(s') && s.history <= s'.history && s.base <= s'.base && s.delivered <= s'.delivered && s'.start == s.start
  {
    hide Delivered;
    match step
    case Send => SendKeeps(s);
    case Append(p) => RetentionBounds(s.base, |s.history| + 1, s.cap);
    case _ =>
  }

  lemma {:induction false} RunKeeps(s: State, run: seq<Step>)
    requires Inv(s) && Exec(s, run).Some?
    ensures var s' := Exec(s, run).value;
      Inv(s') && s.history <= s'.history && s.base <= s'.base && s'.start == s.start
  {
    hide Inv, Apply, Enabled;
    if run != [] {
      var n := |run| - 1;
      RunKeeps(s, run[..n]);
      StepKeeps(Exec(s, run[..n]).value, run[n]);
    }
  }

  /** For every interleaving of a subscriber with appends and trims, deliveries are in strictly
      increasing offset order, carry the payloads appended at their offsets, and omit between
      the requested offset and the cursor only what has been trimmed. */
  lemma {:induction false} SubscriptionIsFaithful(cap: int, history: seq<Bytes>, base: nat, offset: int, run: seq<Step>)
    requires base <= |history| && Exec(Subscribed(cap, history, base, offset), run).Some?
    ensures var s := Exec(Subscribed(cap, history, base, offset), run).value;
      && Faithful(s) && NoGaps(s) && history <= s.history && base <= s.base
      && s.start == if offset < 0 then 0 else offset
  {
    RunKeeps(Subscribed(cap, history, base, offset), run);
  }

  /** Retention holds at every point of a run once the log was within its cap: at most `cap`
      records remain, and the newest always does. */
  lemma {:induction false} RunRetains(s: State, run: seq<Step>)
    requires s.base <= |s.history| && Exec(s, run).Some?
    requires s.cap > 0 ==> |s.history| - s.base <= s.cap
    requires |s.history| > 0 ==> s.base < |s.history|
    ensures var s' := Exec(s, run).value;
      && s'.cap == s.cap && s'.base <= |s'.history|
      && (s.cap > 0 ==> |s'.history| - s'.base <= s.cap)
      && (|s'.history| > 0 ==> s'.base < |s'.history|)
  {
    hide ReadAt;
    if run != [] {
      var n := |run| - 1;
      RunRetains(s, run[..n]);
      var m := Exec(s, run[..n]).value;
      if run[n].Append? { RetentionBounds(m.base, |m.history| + 1, m.cap); }
    }
  }

  /** What retention leaves of a log above its cap. */
  function Kept(cap: int): int { cap - cap / 10 }

  /** Over every run, without a cap nothing is trimmed, and with one, whatever was readable at
      the start still is, or at least 90% of the cap is. */
  lemma {:induction false} RunKeepsWindow(s: State, run: seq<Step>)
    requires s.base <= |s.history| && Exec(s, run).Some?
    ensures var s' := Exec(s, run).value;
      && s'.cap == s.cap && s'.base <= |s'.history|
      && (s.cap <= 0 ==> s'.base == s.base)
      && (s'.base == s.base || |s'.history| - s'.base >= Kept(s.cap))
  {
    hide ReadAt, NextBase;
    if run != [] {
      var n := |run| - 1;
      RunKeepsWindow(s, run[..n]);
      var m := Exec(s, run[..n]).value;
      if run[n].Append? { RetentionBounds(m.base, |m.history| + 1, m.cap); }
    }
  }

  /** At every point of the run the subscriber is behind by no more than retention leaves. */
  predicate KeepsUp(s: State, run: seq<Step>)
    requires Exec(s, run).Some?
  {
    var s' := Exec(s, run).value;
    && (s'.cap <= 0 || |s'.history| - s'.cursor <= Kept(s'.cap))
    && (run != [] ==> KeepsUp(s, run[..|run| - 1]))
  }

  /** A subscriber of a retained offset that keeps up misses nothing: every offset from the
      requested one to its cursor has been delivered. */
  lemma {:induction false} KeepingUpMissesNothing(s: State, run: seq<Step>)
    requires Inv(s) && s.base <= s.cursor == s.start && Exec(s, run).Some? && KeepsUp(s, run)
    ensures var s' := Exec(s, run).value;
      Inv(s') && s'.base <= s'.cursor && s'.start == s.start && forall o: nat :: s.start <= o < s'.cursor ==> Delivered(s'.delivered, o)
  {
    if run != [] {
      var n := |run| - 1;
      var m := Exec(s, run[..n]).value;
      KeepingUpMissesNothing(s, run[..n]);
      StepKeeps(m, run[n]);
      MissesNothingStep(m, run[n]);
    }
  }

  lemma {:induction false} MissesNothingStep(s: State, step: Step)
    requires Enabled(s, step) && s.base <= s.cursor && s.base <= |s.history|
    requires forall o: nat :: s.start <= o < s.cursor ==> Delivered(s.delivered, o)
    requires var s' := Apply(s, step); s'.cap <= 0 || |s'.history| - s'.cursor <= Kept(s'.cap)
    ensures var s' := Apply(s, step);
      s'.base <= s'.cursor && forall o: nat :: s.start <= o < s'.cursor ==> Delivered(s'.delivered, o)
  {
    hide NextBase;
    var s' := Apply(s, step);
    match step
    case Append(p) => RetentionBounds(s.base, |s.history| + 1, s.cap);
    case Send =>
      var n := |s.delivered|;
      forall o: nat | s.start <= o < s'.cursor ensures Delivered(s'.delivered, o) {
        if o == s.cursor {
          assert s'.delivered[n].offset == o;
        } else {
          assert Delivered(s.delivered, o);
          var i :| 0 <= i < n && s.delivered[i].offset == o;
          assert s'.delivered[i].offset == o;
        }
      }
    case _ =>
  }

  /** One undisturbed round of the loop delivers the oldest record it still owes. */
  lemma {:induction false} RoundDelivers(s: State)
    requires s.phase.Top? && Later(s.cursor, s.base) < |s.history|
    ensures var c := Later(s.cursor, s.base);
      Exec(s, [CheckBase, CheckEnd, ReadNext, Send]) ==
      Some(s.(cursor := c + 1, delivered := s.delivered + [Delivery(c, s.history[c])]))
  {
    var c := Later(s.cursor, s.base);
    assert Exec(s, []) == Some(s);
    hide Exec;
    ExecSnoc(s, [], CheckBase);
    ExecSnoc(s, [CheckBase], CheckEnd);
    ExecSnoc(s, [CheckBase, CheckEnd], ReadNext);
    ExecSnoc(s, [CheckBase, CheckEnd, ReadNext], Send);
    assert [] + [CheckBase] == [CheckBase] && [CheckBase] + [CheckEnd] == [CheckBase, CheckEnd];
    assert [CheckBase, CheckEnd] + [ReadNext] == [CheckBase, CheckEnd, ReadNext];
    assert [CheckBase, CheckEnd, ReadNext] + [Send] == [CheckBase, CheckEnd, ReadNext, Send];
    assert Exec(s, [CheckBase]) == Some(s.(phase := BaseChecked, cursor := c));
    assert Exec(s, [CheckBase, CheckEnd]) == Some(s.(phase := Reading, cursor := c));
    assert Exec(s, [CheckBase, CheckEnd, ReadNext]) == Some(s.(phase := Sending(s.history[c]), cursor := c));
  }

  lemma {:induction false} ExecSnoc(s: State, run: seq<Step>, step: Step)
    ensures Exec(s, run + [step]) ==
      if Exec(s, run).Some? && Enabled(Exec(s, run).value, step) then Some(Apply(Exec(s, run).value, step)) else None
  {
    assert (run + [step])[..|run|] == run;
  }

  /** One round at the end of the log delivers nothing. */
  lemma {:induction false} RoundAtEnd(s: State)
    requires s.phase.Top? && Later(s.cursor, s.base) >= |s.history|
    ensures Exec(s, [CheckBase, CheckEnd]) == Some(s.(cursor := Later(s.cursor, s.base)))
  {
    ExecSnoc(s, [], CheckBase);
    ExecSnoc(s, [CheckBase], CheckEnd);
    assert [] + [CheckBase] == [CheckBase] && [CheckBase] + [CheckEnd] == [CheckBase, CheckEnd];
  }

  // ----- catching up ------------------------------------------------------------------------

  /** The records from offset `o` on. */
  ghost function From(history: seq<Bytes>, o: nat): seq<Delivery>
    decreases |history| - o
  {
    if o >= |history| then [] else [Delivery(o, history[o])] + From(history, o + 1)
  }

  /** These are all records from `o` on, each at its own offset. */
  lemma {:induction false} FromIsAll(history: seq<Bytes>, o: nat, i: nat)
    requires o <= |history|
    ensures |From(history, o)| == |history| - o
    ensures i < |history| - o ==> From(history, o)[i] == Delivery(o + i, history[o + i])
    decreases |history| - o
  {
    if o < |history| { FromIsAll(history, o + 1, if i == 0 then 0 else i - 1); }
  }

  function Later(a: nat, b: nat): nat { if a < b then b else a }

  /** The loop against a partition that is not appended to meanwhile, until it has caught up:
      it sends every retained record from the requested offset on, once and in order. */
  method CatchUp(p: Partition, requested: int) returns (sent: seq<Delivery>, offset: nat)
    requires p.Valid()
    ensures var first := Later(if requested < 0 then 0 else requested, p.baseOffset);
      sent == From(p.history, first) && offset == Later(first, |p.history|)
  {
    hide Persisted, Indexed, From;
    offset := if requested < 0 then 0 else requested;
    sent := [];
    if offset < p.baseOffset { offset := p.baseOffset; }
    ghost var first := offset;
    while offset < p.offset
      invariant first <= offset && p.baseOffset <= offset && offset <= Later(first, |p.history|)
      invariant sent + From(p.history, offset) == From(p.history, first)
    {
      FromStep(p.history, offset);
      var r := p.ReadAt(offset);
      sent := sent + [Delivery(offset, r.bytes)];
      offset := offset + 1;
    }
    FromEnd(p.history, offset);
  }

  lemma {:induction false} FromStep(history: seq<Bytes>, o: nat)
    requires o < |history|
    ensures From(history, o) == [Delivery(o, history[o])] + From(history, o + 1)
  {}

  lemma {:induction false} FromEnd(history: seq<Bytes>, o: nat)
    requires o >= |history|
    ensures From(history, o) == []
  {}
}
