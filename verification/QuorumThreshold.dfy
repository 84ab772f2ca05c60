/**
 How many responses a read needs: the freshness theorem fails as soon as responses and a write
 quorum fit into the owners side by side. For every set of owners that small, a run is given in
 which a write is acknowledged by the others and the read hears only from the set.
 */
module QuorumThreshold {
  import opened BigEndian
  import opened VectorClock
  import opened StatKey
  import opened LsmSafety
  import opened Addresses
  import opened HashRing
  import opened Quorum

  // ----- counting owners --------------------------------------------------------------------

  /** The owners outside a set. */
  function Outside(owners: seq<Addr>, rs: set<Addr>): nat {
    if owners == [] then 0 else Outside(owners[..|owners| - 1], rs) + if owners[|owners| - 1] in rs then 0 else 1
  }

  lemma {:induction false} OutsideSnoc(owners: seq<Addr>, j: nat, rs: set<Addr>)
    requires j < |owners|
    ensures Outside(owners[..j + 1], rs) == Outside(owners[..j], rs) + if owners[j] in rs then 0 else 1
  {
    assert owners[..j + 1][..j] == owners[..j];
  }

  /** The members of a set met so far grow one by one. */
  lemma {:induction false} HeardGrows(order: seq<Addr>, rs: set<Addr>, n: nat)
    requires Distinct(order) && n < |order|
    ensures var heard, heard' := set a | a in order[..n] && a in rs, set a | a in order[..n + 1] && a in rs;
      heard' == (if order[n] in rs then heard + {order[n]} else heard)
      && |heard'| == if order[n] in rs then |heard| + 1 else |heard|
  {
    assert order[..n + 1] == order[..n] + [order[n]] && order[n] !in order[..n];
    var heard, heard' := set a | a in order[..n] && a in rs, set a | a in order[..n + 1] && a in rs;
    assert heard' == if order[n] in rs then heard + {order[n]} else heard;
  }

  lemma {:induction false} OutsideCount(owners: seq<Addr>, rs: set<Addr>, n: nat)
    requires Distinct(owners) && n <= |owners|
    ensures Outside(owners[..n], rs) + |set a | a in owners[..n] && a in rs| == n
  {
    if n == 0 {
      assert (set a | a in owners[..0] && a in rs) == {};
    } else {
      hide Outside, Distinct;
      OutsideCount(owners, rs, n - 1);
      OutsideSnoc(owners, n - 1, rs);
      HeardGrows(owners, rs, n - 1);
    }
  }

  // ----- the acknowledged write --------------------------------------------------------------

  /** One call per owner, nothing delivered yet. */
  function Calls(owners: seq<Addr>): (calls: seq<Remote>)
    ensures |calls| == |owners|
  {
    if owners == [] then [] else Calls(owners[..|owners| - 1]) + [Remote(owners[|owners| - 1], false, Waiting)]
  }

  lemma {:induction false} CallsAt(owners: seq<Addr>, i: nat)
    requires i < |owners|
    ensures Calls(owners)[i] == Remote(owners[i], false, Waiting)
  {
    if i < |owners| - 1 { CallsAt(owners[..|owners| - 1], i); }
  }

  /** A coordinator that owns nothing has called its first `n` owners. */
  function Fanning(self: Addr, e: StatEntry, owners: seq<Addr>, n: nat): WriteOp
    requires n <= |owners|
  {
    WriteOp(self, e, owners, n, Calls(owners[..n]), 0, None, {})
  }

  lemma {:induction false} FanStep(cl: Cluster, self: Addr, e: StatEntry, owners: seq<Addr>, n: nat)
    requires cl.Valid() && n < |owners| && self !in owners
    ensures var s := State(map[], [Fanning(self, e, owners, n)], []);
      Enabled(s, Prepare(0, true, false, false))
      && Apply(cl, s, Prepare(0, true, false, false)) == State(map[], [Fanning(self, e, owners, n + 1)], [])
  {
    assert owners[n] in owners;
    assert owners[..n + 1][..n] == owners[..n];
  }

  lemma {:induction false} FanOut(cl: Cluster, run: seq<Step>, self: Addr, e: StatEntry, owners: seq<Addr>, n: nat) returns (run': seq<Step>)
    requires cl.Valid() && n <= |owners| && self !in owners
    requires Exec(cl, run) == Some(State(map[], [Fanning(self, e, owners, n)], []))
    ensures Exec(cl, run') == Some(State(map[], [Fanning(self, e, owners, |owners|)], []))
    decreases |owners| - n
  {
    hide Exec, Apply, Enabled, Fanning;
    run' := run;
    if n < |owners| {
      FanStep(cl, self, e, owners, n);
      ExecSnoc(cl, run, Prepare(0, true, false, false));
      run' := FanOut(cl, run + [Prepare(0, true, false, false)], self, e, owners, n + 1);
    }
  }

  function Least(a: nat, b: nat): nat { if a < b then a else b }

  /** The owners outside `rs` among the first `j` have answered, as far as the coordinator waits. */
  ghost predicate Collecting(s: State, self: Addr, e: StatEntry, owners: seq<Addr>, rs: set<Addr>, j: nat) {
    && s.queries == [] && |s.writes| == 1 && j <= |owners|
    && (forall a <- rs :: Stored(s.stores, a) == {})
    && var w := s.writes[0];
      && w.self == self && w.entry == e && w.owners == owners && FannedOut(w) && w.result.None?
      && |w.remotes| == |owners|
      && (forall i :: j <= i < |owners| ==> w.remotes[i] == Remote(owners[i], false, Waiting))
      && w.acks == Least(Outside(owners[..j], rs), Need(owners, WRITE_QUORUM))
  }

  /** The state after owner `j` stored the entry, said so and was counted. */
  ghost function Counted(s: State, j: nat): State
    requires |s.writes| == 1 && j < |s.writes[0].remotes|
  {
    var w := s.writes[0];
    var o := w.remotes[j].owner;
    s.(writes := [w.(remotes := w.remotes[j := Remote(o, true, Taken)], acks := w.acks + 1, ackers := w.ackers + {o})],
       stores := WithEntry(s.stores, o, w.entry))
  }

  lemma {:induction false} CountSteps(cl: Cluster, run: seq<Step>, s: State, j: nat) returns (run': seq<Step>)
    requires cl.Valid() && Exec(cl, run) == Some(s) && |s.writes| == 1
    requires var w := s.writes[0];
      && FannedOut(w) && j < |w.remotes| && w.remotes[j].reply.Waiting? && w.result.None?
      && w.acks < Need(w.owners, WRITE_QUORUM)
    ensures Exec(cl, run') == Some(Counted(s, j))
  {
    hide Exec;
    var w := s.writes[0];
    ExecSnoc(cl, run, Deliver(0, j));
    var s1 := Apply(cl, s, Deliver(0, j));
    ExecSnoc(cl, run + [Deliver(0, j)], Answer(0, j, true));
    var s2 := Apply(cl, s1, Answer(0, j, true));
    ExecSnoc(cl, run + [Deliver(0, j)] + [Answer(0, j, true)], Collect(0, j));
    run' := run + [Deliver(0, j)] + [Answer(0, j, true)] + [Collect(0, j)];
    var m := w.remotes[j];
    assert s2.writes[0].remotes == w.remotes[j := Remote(m.owner, true, Replied(true))];
    assert Apply(cl, s2, Collect(0, j)).writes[0].remotes == w.remotes[j := Remote(m.owner, true, Taken)];
    assert Apply(cl, s2, Collect(0, j)).writes == Counted(s, j).writes;
  }

  lemma {:induction false} CountedCollects(s: State, self: Addr, e: StatEntry, owners: seq<Addr>, rs: set<Addr>, j: nat)
    requires Collecting(s, self, e, owners, rs, j) && j < |owners| && owners[j] !in rs
    requires s.writes[0].acks < Need(owners, WRITE_QUORUM)
    ensures Collecting(Counted(s, j), self, e, owners, rs, j + 1)
  {
    OutsideSnoc(owners, j, rs);
    hide Outside;
    assert s.writes[0].remotes[j].owner == owners[j];
  }

  lemma {:induction false} SkippedCollects(s: State, self: Addr, e: StatEntry, owners: seq<Addr>, rs: set<Addr>, j: nat)
    requires Collecting(s, self, e, owners, rs, j) && j < |owners|
    requires owners[j] in rs || s.writes[0].acks >= Need(owners, WRITE_QUORUM)
    ensures Collecting(s, self, e, owners, rs, j + 1)
  {
    OutsideSnoc(owners, j, rs);
  }

  lemma {:induction false} CollectAll(cl: Cluster, run: seq<Step>, s: State, self: Addr, e: StatEntry, owners: seq<Addr>, rs: set<Addr>, j: nat)
    returns (run': seq<Step>, s': State)
    requires cl.Valid() && Exec(cl, run) == Some(s) && Collecting(s, self, e, owners, rs, j)
    ensures Exec(cl, run') == Some(s') && Collecting(s', self, e, owners, rs, |owners|)
    decreases |owners| - j
  {
    hide Exec, Outside, Counted;
    run', s' := run, s;
    if j < |owners| {
      if owners[j] in rs || s.writes[0].acks >= Need(owners, WRITE_QUORUM) {
        SkippedCollects(s, self, e, owners, rs, j);
        run', s' := CollectAll(cl, run, s, self, e, owners, rs, j + 1);
      } else {
        var next := CountSteps(cl, run, s, j);
        CountedCollects(s, self, e, owners, rs, j);
        run', s' := CollectAll(cl, next, Counted(s, j), self, e, owners, rs, j + 1);
      }
    }
  }

  /** The one write is acknowledged, and the owners in `rs` hold nothing. */
  ghost predicate Missed(s: State, e: StatEntry, rs: set<Addr>) {
    && s.queries == [] && |s.writes| == 1 && s.writes[0].entry == e && s.writes[0].result == Some(true)
    && (forall a <- rs :: Stored(s.stores, a) == {})
  }

  lemma {:induction false} StartFanning(cl: Cluster, self: Addr, e: StatEntry)
    requires cl.Valid() && Sane(e)
    ensures Exec(cl, [StartWrite(self, e)]) == Some(State(map[], [Fanning(self, e, cl.OwnersOf(self, e.entityId), 0)], []))
  {
    assert Exec(cl, []) == Some(State(map[], [], []));
    hide Exec;
    ExecSnoc(cl, [], StartWrite(self, e));
    assert [] + [StartWrite(self, e)] == [StartWrite(self, e)];
    var owners := cl.OwnersOf(self, e.entityId);
    assert owners[..0] == [] && Calls(owners[..0]) == [];
    var op := WriteOp(self, e, owners, 0, [], 0, None, {});
    assert Fanning(self, e, owners, 0) == op && [] + [op] == [op];
  }

  lemma {:induction false} FannedCollects(self: Addr, e: StatEntry, owners: seq<Addr>, rs: set<Addr>)
    ensures Collecting(State(map[], [Fanning(self, e, owners, |owners|)], []), self, e, owners, rs, 0)
  {
    assert owners[..|owners|] == owners && owners[..0] == [];
    forall i | 0 <= i < |owners| ensures Calls(owners)[i] == Remote(owners[i], false, Waiting) { CallsAt(owners, i); }
  }

  lemma {:induction false} FinishCollecting(cl: Cluster, s: State, self: Addr, e: StatEntry, owners: seq<Addr>, rs: set<Addr>)
    requires cl.Valid() && Collecting(s, self, e, owners, rs, |owners|) && Outside(owners, rs) >= Need(owners, WRITE_QUORUM)
    ensures Enabled(s, FinishWrite(0)) && Missed(Apply(cl, s, FinishWrite(0)), e, rs)
  {
    assert owners[..|owners|] == owners;
  }

  /** A write acknowledged without the owners in `rs`. */
  lemma {:induction false} MissedWrite(cl: Cluster, self: Addr, e: StatEntry, rs: set<Addr>) returns (run: seq<Step>, s: State)
    requires cl.Valid() && Sane(e)
    requires var owners := cl.OwnersOf(self, e.entityId);
      self !in owners && Outside(owners, rs) >= Need(owners, WRITE_QUORUM)
    ensures Exec(cl, run) == Some(s) && Missed(s, e, rs)
  {
    hide Exec, Fanning, Collecting, Missed, Outside, Enabled, Apply;
    var owners := cl.OwnersOf(self, e.entityId);
    StartFanning(cl, self, e);
    run := FanOut(cl, [StartWrite(self, e)], self, e, owners, 0);
    FannedCollects(self, e, owners, rs);
    run, s := CollectAll(cl, run, State(map[], [Fanning(self, e, owners, |owners|)], []), self, e, owners, rs, 0);
    FinishCollecting(cl, s, self, e, owners, rs);
    ExecSnoc(cl, run, FinishWrite(0));
    run, s := run + [FinishWrite(0)], Apply(cl, s, FinishWrite(0));
  }

  // ----- the read that hears only from the set ---------------------------------------------------

  /** Read number 0 after its first `n` owners: those in `rs` answered that they hold nothing. */
  ghost function Hearing(s: State, self: Addr, req: Request, order: seq<Addr>, rs: set<Addr>, n: nat): State
    requires n <= |order|
  {
    var heard := set a | a in order[..n] && a in rs;
    s.(queries := [ReadOp(self, req, order, n, |heard|, None, false, heard, {0})])
  }

  lemma {:induction false} NothingStored(s: State, k: Key, a: Addr)
    requires Stored(s.stores, a) == {}
    ensures Best(None, k, Stored(s.stores, a))
  {}

  lemma {:induction false} HearStep(cl: Cluster, s: State, e: StatEntry, self: Addr, req: Request, order: seq<Addr>, rs: set<Addr>, n: nat)
    requires cl.Valid() && Missed(s, e, rs) && n < |order| && Distinct(order) && (self in order ==> self in rs)
    ensures var o := if order[n] in rs then Answered(None) else Dead;
      var b := Hearing(s, self, req, order, rs, n);
      Enabled(b, Visit(0, o)) && Apply(cl, b, Visit(0, o)) == Hearing(s, self, req, order, rs, n + 1)
  {
    hide Missed, Distinct, Best, Visited;
    var b := Hearing(s, self, req, order, rs, n);
    HeardGrows(order, rs, n);
    assert order[n] in order;
    HearVisited(b.queries[0], order[n] in rs);
    if order[n] in rs { EmptyStore(s, e, rs, ReadKey(req), order[n]); }
  }

  lemma {:induction false} EmptyStore(s: State, e: StatEntry, rs: set<Addr>, k: Key, a: Addr)
    requires Missed(s, e, rs) && a in rs
    ensures Best(None, k, Stored(s.stores, a))
  {
    NothingStored(s, k, a);
  }

  lemma {:induction false} HearVisited(r: ReadOp, heard: bool)
    requires r.cursor < |r.owners| && r.best.None? && !r.stopped && (r.owners[r.cursor] == r.self ==> heard)
    ensures Visited(r, if heard then Answered(None) else Dead) ==
      var r' := r.(cursor := r.cursor + 1);
      if heard then r'.(responses := r.responses + 1, responders := r.responders + {r.owners[r.cursor]}) else r'
  {}

  lemma {:induction false} HearAll(cl: Cluster, run: seq<Step>, s: State, e: StatEntry, self: Addr, req: Request, order: seq<Addr>, rs: set<Addr>, n: nat)
    returns (run': seq<Step>)
    requires cl.Valid() && Missed(s, e, rs) && n <= |order| && Distinct(order) && (self in order ==> self in rs)
    requires Exec(cl, run) == Some(Hearing(s, self, req, order, rs, n))
    ensures Exec(cl, run') == Some(Hearing(s, self, req, order, rs, |order|))
    decreases |order| - n
  {
    hide Exec, Apply, Enabled, Hearing, Missed, Distinct;
    run' := run;
    if n < |order| {
      var o := if order[n] in rs then Answered(None) else Dead;
      HearStep(cl, s, e, self, req, order, rs, n);
      ExecSnoc(cl, run, Visit(0, o));
      run' := HearAll(cl, run + [Visit(0, o)], s, e, self, req, order, rs, n + 1);
    }
  }

  lemma {:induction false} StartHearing(cl: Cluster, s: State, e: StatEntry, self: Addr, req: Request, rs: set<Addr>)
    requires cl.Valid() && Missed(s, e, rs)
    ensures var order := SelfFirst(cl.OwnersOf(self, req.entityId), self);
      Apply(cl, s, StartRead(self, req)) == Hearing(s, self, req, order, rs, 0)
  {
    var order := SelfFirst(cl.OwnersOf(self, req.entityId), self);
    assert Acknowledged(s.writes) == {0};
    assert (set a | a in order[..0] && a in rs) == {};
  }

  // ----- the threshold --------------------------------------------------------------------------------

  /** A read of `req` by `self` that heard exactly from `rs` reflects every write it owes. */
  ghost predicate AlwaysFresh(cl: Cluster, self: Addr, req: Request, rs: set<Addr>)
    requires cl.Valid()
  {
    forall run, k: nat, i: nat | Exec(cl, run).Some? && HeardFrom(cl, Exec(cl, run).value, k, i, self, req, rs) ::
      Beats(Exec(cl, run).value.queries[k].best, Exec(cl, run).value.writes[i].entry)
  }

  ghost predicate HeardFrom(cl: Cluster, s: State, k: nat, i: nat, self: Addr, req: Request, rs: set<Addr>) {
    Owes(cl, s, k, i) && s.queries[k].self == self && s.queries[k].req == req && s.queries[k].responders == rs
    && s.queries[k].Over()
  }

  /** An entry of the requested key. */
  function Asked(req: Request): (e: StatEntry)
    ensures EntryKey(e) == ReadKey(req) && e.entityId == req.entityId && Sane(e)
  {
    StatEntry(req.entityId, [], req.patch, req.region, req.tier, 0.0, 0.0, 0.0, 0, map[])
  }

  /** Any list of addresses leaves one unused. */
  lemma {:induction false} UnusedAddr(owners: seq<Addr>) returns (a: Addr)
    ensures a !in owners && a != "" && forall b <- owners :: |b| < |a|
  {
    if owners == [] {
      a := "x";
    } else {
      var n := |owners| - 1;
      a := UnusedAddr(owners[..n]);
      a := a + owners[n];
      forall b | b in owners ensures |b| < |a| { assert b in owners[..n] || b == owners[n]; }
    }
  }

  /** A run in which the read hears from all of `rs`, too few, and finds nothing of the write. */
  lemma {:induction false} StaleRun(cl: Cluster, self: Addr, req: Request, rs: set<Addr>) returns (run: seq<Step>)
    requires cl.Valid() && cl.ring != []
    requires var owners := cl.OwnersOf(self, req.entityId);
      (forall a <- rs :: a in owners) && (self in owners ==> self in rs) && |rs| + Need(owners, WRITE_QUORUM) <= |owners|
    ensures Exec(cl, run).Some? && HeardFrom(cl, Exec(cl, run).value, 0, 0, self, req, rs)
    ensures Exec(cl, run).value.queries[0].best.None?
  {
    hide Exec, Missed, Hearing, Outside, Asked, SelfFirst, Owners;
    var owners, e := cl.OwnersOf(self, req.entityId), Asked(req);
    OwnersAreReplicaSet(cl, self, req.entityId);
    var writer := UnusedAddr(owners);
    SameOwners(cl, self, writer, req.entityId);
    OutsideCount(owners, rs, |owners|);
    assert owners[..|owners|] == owners;
    assert (set a | a in owners && a in rs) == rs;
    var s;
    run, s := MissedWrite(cl, writer, e, rs);
    StartHearing(cl, s, e, self, req, rs);
    ExecSnoc(cl, run, StartRead(self, req));
    var order := SelfFirst(owners, self);
    SelfFirstPermutes(owners, self);
    run := HearAll(cl, run + [StartRead(self, req)], s, e, self, req, order, rs, 0);
    HeardAll(cl, s, e, self, req, order, rs);
  }

  lemma {:induction false} HeardAll(cl: Cluster, s: State, e: StatEntry, self: Addr, req: Request, order: seq<Addr>, rs: set<Addr>)
    requires Missed(s, e, rs) && (forall a <- rs :: a in order) && cl.ring != []
    requires EntryKey(e) == ReadKey(req) && e.entityId == req.entityId
    ensures var s' := Hearing(s, self, req, order, rs, |order|);
      HeardFrom(cl, s', 0, 0, self, req, rs) && s'.queries[0].best.None?
  {
    assert order[..|order|] == order;
    assert (set a | a in order && a in rs) == rs;
  }

  /** The exact threshold: whoever coordinates a read and whichever owners answer it, the read is
      sure to reflect every acknowledged write if and only if the answers and a write quorum
      cannot fit side by side into the owners. */
  lemma {:induction false} FreshnessThreshold(cl: Cluster, self: Addr, req: Request, rs: set<Addr>)
    requires cl.Valid() && cl.ring != []
    requires var owners := cl.OwnersOf(self, req.entityId);
      (forall a <- rs :: a in owners) && (self in owners ==> self in rs)
    ensures var owners := cl.OwnersOf(self, req.entityId);
      AlwaysFresh(cl, self, req, rs) <==> |rs| + Need(owners, WRITE_QUORUM) > |owners|
  {
    var owners := cl.OwnersOf(self, req.entityId);
    hide Exec, Owners, SelfFirst;
    if |rs| + Need(owners, WRITE_QUORUM) > |owners| {
      forall run, k: nat, i: nat | Exec(cl, run).Some? && HeardFrom(cl, Exec(cl, run).value, k, i, self, req, rs)
        ensures Beats(Exec(cl, run).value.queries[k].best, Exec(cl, run).value.writes[i].entry)
      {
        EnoughHeard(cl, run, k, i, self, req, rs);
      }
    } else {
      var run := StaleRun(cl, self, req, rs);
      assert HeardFrom(cl, Exec(cl, run).value, 0, 0, self, req, rs);
    }
  }

  lemma {:induction false} EnoughHeard(cl: Cluster, run: seq<Step>, k: nat, i: nat, self: Addr, req: Request, rs: set<Addr>)
    requires cl.Valid() && Exec(cl, run).Some? && HeardFrom(cl, Exec(cl, run).value, k, i, self, req, rs)
    requires var owners := cl.OwnersOf(self, req.entityId); |rs| + Need(owners, WRITE_QUORUM) > |owners|
    ensures Beats(Exec(cl, run).value.queries[k].best, Exec(cl, run).value.writes[i].entry)
  {
    hide Exec, Owners, SelfFirst, AtLeast, WriteOk, StoresOk, Covers, Wrote;
    Quorum.RunKeeps(cl, run);
    var r := Exec(cl, run).value.queries[k];
    assert ReadOk(cl, Exec(cl, run).value.writes, r);
    SelfFirstPermutes(cl.OwnersOf(self, req.entityId), self);
    OverlappingReadIsFresh(cl, run, k, i);
  }
}
