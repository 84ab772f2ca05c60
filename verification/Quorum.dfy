/**
 The metastore's quorum layer (metastore/server.go) as a machine whose steps interleave any
 number of coordinators, dead peers, failing calls and replica writes that land late. Every
 replica is an LSM tree, which by `LsmSafety.ReadReturnsBest` answers with a best entry it
 logged; here a replica is the set of entries it logged.
 */
module Quorum {
  import opened BigEndian
  import opened VectorClock
  import opened StatKey
  import opened LsmSafety
  import opened Addresses
  import opened HashRing

  const REPLICA_FACTOR := 3
  const WRITE_QUORUM := 2
  const READ_QUORUM := 2

  /** The shared ring, fixed for a run, and the hash of entity ids. */
  datatype Cluster = Cluster(ring: seq<nat>, slots: map<nat, Addr>, hash: Bytes -> nat) {
    ghost predicate Valid() {
      Increasing(ring) && forall h :: h in ring <==> h in slots
    }

    /** The replicas of an entity; with an empty ring a coordinator serves on its own, which is
        what the loops do with itself as the only owner. */
    function OwnersOf(self: Addr, id: Bytes): seq<Addr>
      requires forall h <- ring :: h in slots
    {
      var owners := Take(Owners(ring, slots, hash(id)), REPLICA_FACTOR);
      if owners == [] then [self] else owners
    }
  }

  ghost predicate Distinct(s: seq<Addr>) {
    forall i, j :: 0 <= i < j < |s| ==> s[i] != s[j]
  }

  /** One to three distinct owners. */
  ghost predicate ReplicaSet(owners: seq<Addr>) {
    1 <= |owners| <= REPLICA_FACTOR && Distinct(owners)
  }

  lemma {:induction false} OwnersAreReplicaSet(cl: Cluster, self: Addr, id: Bytes)
    requires cl.Valid()
    ensures ReplicaSet(cl.OwnersOf(self, id))
  {
    OwnersBound(cl.ring, cl.slots, cl.hash(id), cl.slots.Values);
  }

  lemma {:induction false} DistinctLength(s: seq<Addr>, members: set<Addr>)
    requires Distinct(s) && forall a :: a in s <==> a in members
    ensures |s| == |members|
  {
    if s == [] {
      assert members == {};
    } else {
      var n := |s| - 1;
      assert forall a :: a in s <==> a in s[..n] || a == s[n];
      DistinctLength(s[..n], members - {s[n]});
      assert members == members - {s[n]} + {s[n]};
    }
  }

  /** An entity has as many owners as there are nodes with a slot, but three at most; a
      coordinator with an empty ring is its own. */
  lemma {:induction false} OwnerCount(cl: Cluster, self: Addr, id: Bytes)
    requires cl.Valid()
    ensures var owners, nodes := cl.OwnersOf(self, id), cl.slots.Values;
      if nodes == {} then owners == [self]
      else |owners| == (if |nodes| < REPLICA_FACTOR then |nodes| else REPLICA_FACTOR) && forall a <- owners :: a in nodes
  {
    OwnersBound(cl.ring, cl.slots, cl.hash(id), cl.slots.Values);
    hide Owners;
    var all := Owners(cl.ring, cl.slots, cl.hash(id));
    forall a ensures a in all <==> a in cl.slots.Values {
      if a in cl.slots.Values { var h :| h in cl.slots && cl.slots[h] == a; assert h in cl.ring; }
    }
    DistinctLength(all, cl.slots.Values);
  }

  function Need(owners: seq<Addr>, quorum: nat): nat {
    if |owners| < quorum then |owners| else quorum
  }

  // ----- operations in progress --------------------------------------------------------

  /** A replica call: its reply waits in the result channel until the coordinator takes it. */
  datatype Reply = Waiting | Replied(ok: bool) | Taken
  datatype Remote = Remote(owner: Addr, stored: bool, reply: Reply)

  /** A coordinated write. `ackers` records which replicas were counted in `acks`. */
  datatype WriteOp = WriteOp(self: Addr, entry: StatEntry, owners: seq<Addr>, cursor: nat,
                             remotes: seq<Remote>, acks: nat, result: Option<bool>, ackers: set<Addr>)

  datatype Request = Request(entityId: Bytes, patch: Bytes, tier: Bytes, region: Bytes)

  function ReadKey(req: Request): Key {
    req.entityId + [COLON] + req.patch + [COLON] + req.tier + [COLON] + req.region
  }

  /** A coordinated read. `responders` records who was counted in `responses`, and
      `finished` which writes had been acknowledged when the read began. */
  datatype ReadOp = ReadOp(self: Addr, req: Request, owners: seq<Addr>, cursor: nat, responses: nat,
                           best: Option<StatEntry>, stopped: bool, responders: set<Addr>, finished: set<nat>)
  {
    predicate Over() { stopped || cursor >= |owners| }
  }

  datatype State = State(stores: map<Addr, set<StatEntry>>, writes: seq<WriteOp>, queries: seq<ReadOp>)

  function Stored(stores: map<Addr, set<StatEntry>>, a: Addr): set<StatEntry> {
    if a in stores then stores[a] else {}
  }

  function WithEntry(stores: map<Addr, set<StatEntry>>, a: Addr, e: StatEntry): map<Addr, set<StatEntry>> {
    stores[a := Stored(stores, a) + {e}]
  }

  // ----- ordering owners ----------------------------------------------------------------

  function Only(owners: seq<Addr>, self: Addr, mine: bool): seq<Addr> {
    if owners == [] then []
    else
      var rest := Only(owners[..|owners| - 1], self, mine);
      var o := owners[|owners| - 1];
      if (o == self) == mine then rest + [o] else rest
  }

  function SelfFirst(owners: seq<Addr>, self: Addr): seq<Addr> {
    Only(owners, self, true) + Only(owners, self, false)
  }

  method OrderSelfFirst(owners: seq<Addr>, self: Addr) returns (out: seq<Addr>)
    ensures out == SelfFirst(owners, self)
  {
    out := [];
    for i := 0 to |owners|
      invariant out == Only(owners[..i], self, true)
    {
      assert owners[..i + 1][..i] == owners[..i];
      if owners[i] == self { out := out + [owners[i]]; }
    }
    assert owners[..|owners|] == owners;
    ghost var mine := out;
    for i := 0 to |owners|
      invariant out == mine + Only(owners[..i], self, false)
    {
      assert owners[..i + 1][..i] == owners[..i];
      if owners[i] != self { out := out + [owners[i]]; }
    }
  }

  lemma {:induction false} OnlyMembers(owners: seq<Addr>, self: Addr, mine: bool)
    ensures forall a :: a in Only(owners, self, mine) <==> a in owners && (a == self) == mine
    ensures Distinct(owners) ==> Distinct(Only(owners, self, mine))
    ensures |Only(owners, self, true)| + |Only(owners, self, false)| == |owners|
  {
    if owners != [] {
      var n := |owners| - 1;
      OnlyMembers(owners[..n], self, mine);
      if Distinct(owners) { assert owners[n] !in owners[..n]; }
    }
  }

  /** orderSelfFirst permutes the owners, with the coordinator, if it is one, in front. */
  lemma {:induction false} SelfFirstPermutes(owners: seq<Addr>, self: Addr)
    ensures var out := SelfFirst(owners, self);
      && (forall a :: a in out <==> a in owners)
      && |out| == |owners|
      && (Distinct(owners) ==> Distinct(out))
      && (self in owners ==> out != [] && out[0] == self)
  {
    hide Only;
    OnlyMembers(owners, self, true);
    OnlyMembers(owners, self, false);
    var mine, others := Only(owners, self, true), Only(owners, self, false);
    if self in owners { assert self in mine; assert mine[0] in mine; }
    forall i, j | 0 <= i < j < |mine + others| && Distinct(owners) ensures (mine + others)[i] != (mine + others)[j] {
      if i < |mine| <= j { assert mine[i] in mine && others[j - |mine|] in others; }
    }
  }

  // ----- steps ----------------------------------------------------------------------------

  /** What a visit to an owner yields: skipped as dead, failed, or an answer. */
  datatype Outcome = Dead | Failed | Answered(entry: Option<StatEntry>)

  datatype Step =
    | StartWrite(self: Addr, entry: StatEntry)
    | Prepare(w: nat, alive: bool, applied: bool, ok: bool)
    | Deliver(w: nat, i: nat)
    | Answer(w: nat, i: nat, ok: bool)
    | Collect(w: nat, i: nat)
    | FinishWrite(w: nat)
    | StartRead(self: Addr, req: Request)
    | Visit(r: nat, outcome: Outcome)

  predicate FannedOut(w: WriteOp) { w.cursor == |w.owners| }

  predicate AllTaken(w: WriteOp) { forall m <- w.remotes :: m.reply.Taken? }

  ghost predicate Enabled(s: State, step: Step) {
    match step
    case StartWrite(_, e) => Sane(e)
    // A failed local write may still have reached the log; a successful one has.
    case Prepare(w, _, applied, ok) => w < |s.writes| && s.writes[w].cursor < |s.writes[w].owners| && (ok ==> applied)
    // A replica may apply the forwarded entry at any time, also long after the coordinator answered.
    case Deliver(w, i) => w < |s.writes| && FannedOut(s.writes[w]) && i < |s.writes[w].remotes|
    case Answer(w, i, ok) =>
      && w < |s.writes| && FannedOut(s.writes[w]) && i < |s.writes[w].remotes|
      && s.writes[w].remotes[i].reply.Waiting? && (ok ==> s.writes[w].remotes[i].stored)
    case Collect(w, i) =>
      && w < |s.writes| && FannedOut(s.writes[w]) && i < |s.writes[w].remotes|
      && s.writes[w].remotes[i].reply.Replied? && s.writes[w].result.None?
      && s.writes[w].acks < Need(s.writes[w].owners, WRITE_QUORUM)
    case FinishWrite(w) =>
      && w < |s.writes| && FannedOut(s.writes[w]) && s.writes[w].result.None?
      && (AllTaken(s.writes[w]) || s.writes[w].acks >= Need(s.writes[w].owners, WRITE_QUORUM))
    case StartRead(_, _) => true
    case Visit(r, o) =>
      && r < |s.queries| && !s.queries[r].Over()
      && var owner := s.queries[r].owners[s.queries[r].cursor];
        && (owner == s.queries[r].self ==> o.Answered?)
        && (o.Answered? ==> Best(o.entry, ReadKey(s.queries[r].req), Stored(s.stores, owner)))
  }

  /** The fan-out loop of Write at its next owner. */
  function Prepared(w: WriteOp, alive: bool, ok: bool): WriteOp
    requires w.cursor < |w.owners|
  {
    var owner := w.owners[w.cursor];
    if owner == w.self then
      if ok then w.(cursor := w.cursor + 1, acks := w.acks + 1, ackers := w.ackers + {owner})
      else w.(cursor := w.cursor + 1)
    else if !alive then w.(cursor := w.cursor + 1)
    else w.(cursor := w.cursor + 1, remotes := w.remotes + [Remote(owner, false, Waiting)])
  }

  function Collected(w: WriteOp, i: nat): WriteOp
    requires i < |w.remotes| && w.remotes[i].reply.Replied?
  {
    var m := w.remotes[i];
    var w' := w.(remotes := w.remotes[i := m.(reply := Taken)]);
    if m.reply.ok then w'.(acks := w.acks + 1, ackers := w.ackers + {m.owner}) else w'
  }

  /** The loop of Read at its next owner. The local branch continues without the break test. */
  ghost function Visited(r: ReadOp, o: Outcome): ReadOp
    requires r.cursor < |r.owners|
  {
    var owner := r.owners[r.cursor];
    var r1 := r.(cursor := r.cursor + 1);
    var r2 := if o.Answered?
              then r1.(responses := r.responses + 1, best := PickNewer(r.best, o.entry), responders := r.responders + {owner})
              else r1;
    if owner == r.self || o.Dead? then r2
    else r2.(stopped := r2.responses >= Need(r.owners, READ_QUORUM) && r2.best.Some?)
  }

  /** The writes acknowledged so far. */
  function Acknowledged(writes: seq<WriteOp>): set<nat> {
    set i | 0 <= i < |writes| && writes[i].result == Some(true)
  }

  ghost function Apply(cl: Cluster, s: State, step: Step): State
    requires cl.Valid() && Enabled(s, step)
  {
    match step
    case StartWrite(self, e) =>
      s.(writes := s.writes + [WriteOp(self, e, cl.OwnersOf(self, e.entityId), 0, [], 0, None, {})])
    case Prepare(w, alive, applied, ok) =>
      var op := s.writes[w];
      var local := op.owners[op.cursor] == op.self && applied;
      s.(writes := s.writes[w := Prepared(op, alive, ok)],
         stores := if local then WithEntry(s.stores, op.self, op.entry) else s.stores)
    case Deliver(w, i) =>
      var op := s.writes[w];
      s.(writes := s.writes[w := op.(remotes := op.remotes[i := op.remotes[i].(stored := true)])],
         stores := WithEntry(s.stores, op.remotes[i].owner, op.entry))
    case Answer(w, i, ok) =>
      var op := s.writes[w];
      s.(writes := s.writes[w := op.(remotes := op.remotes[i := op.remotes[i].(reply := Replied(ok))])])
    case Collect(w, i) => s.(writes := s.writes[w := Collected(s.writes[w], i)])
    case FinishWrite(w) =>
      var op := s.writes[w];
      s.(writes := s.writes[w := op.(result := Some(op.acks >= Need(op.owners, WRITE_QUORUM)))])
    case StartRead(self, req) =>
      var owners := SelfFirst(cl.OwnersOf(self, req.entityId), self);
      s.(queries := s.queries + [ReadOp(self, req, owners, 0, 0, None, false, {}, Acknowledged(s.writes))])
    case Visit(r, o) => s.(queries := s.queries[r := Visited(s.queries[r], o)])
  }

  ghost function Exec(cl: Cluster, run: seq<Step>): Option<State>
    requires cl.Valid()
  {
    if run == [] then Some(State(map[], [], []))
    else
      var before := Exec(cl, run[..|run| - 1]);
      if before.Some? && Enabled(before.value, run[|run| - 1])
      then Some(Apply(cl, before.value, run[|run| - 1]))
      else None
  }

  // ----- the invariant ---------------------------------------------------------------------

  ghost predicate Wrote(writes: seq<WriteOp>, e: StatEntry) {
    exists i :: 0 <= i < |writes| && writes[i].entry == e
  }

  /** Counted acknowledgements come from distinct owners that hold the entry. */
  ghost predicate RemoteOk(w: WriteOp, stores: map<Addr, set<StatEntry>>, m: Remote) {
    && m.owner != w.self
    && w.cursor <= |w.owners| && m.owner in w.owners[..w.cursor]
    && (m.stored ==> w.entry in Stored(stores, m.owner))
    && (m.reply == Replied(true) ==> m.stored)
    && (!m.reply.Taken? ==> m.owner !in w.ackers)
  }

  ghost predicate WriteOk(cl: Cluster, stores: map<Addr, set<StatEntry>>, w: WriteOp)
    requires cl.Valid()
  {
    && ReplicaSet(w.owners) && w.owners == cl.OwnersOf(w.self, w.entry.entityId)
    && w.cursor <= |w.owners| && Sane(w.entry)
    && |w.ackers| == w.acks
    && (forall a <- w.ackers :: a in w.owners[..w.cursor] && w.entry in Stored(stores, a))
    && (forall m <- w.remotes :: RemoteOk(w, stores, m))
    && (forall i, j :: 0 <= i < j < |w.remotes| ==> w.remotes[i].owner != w.remotes[j].owner)
    && (w.result.Some? ==> FannedOut(w) && (w.result.value <==> w.acks >= Need(w.owners, WRITE_QUORUM)))
  }

  /** Every acknowledged write that one of the responders had acknowledged is in the answer. */
  ghost predicate Covers(r: ReadOp, w: WriteOp) {
    EntryKey(w.entry) == ReadKey(r.req) && r.responders * w.ackers != {} ==> Beats(r.best, w.entry)
  }

  ghost predicate ReadOk(cl: Cluster, writes: seq<WriteOp>, r: ReadOp)
    requires cl.Valid()
  {
    && r.owners == SelfFirst(cl.OwnersOf(r.self, r.req.entityId), r.self) && Distinct(r.owners)
    && |r.responders| == r.responses && r.cursor <= |r.owners|
    && (forall a <- r.responders :: a in r.owners[..r.cursor])
    && (r.best.Some? ==> EntryKey(r.best.value) == ReadKey(r.req) && Wrote(writes, r.best.value))
    && (forall i <- r.finished :: 0 <= i < |writes| && writes[i].result == Some(true) && Covers(r, writes[i]))
  }

  ghost predicate StoresOk(s: State) {
    forall a <- s.stores.Keys :: forall e <- s.stores[a] :: Wrote(s.writes, e)
  }

  ghost predicate Inv(cl: Cluster, s: State)
    requires cl.Valid()
  {
    && StoresOk(s)
    && (forall w <- s.writes :: WriteOk(cl, s.stores, w))
    && (forall r <- s.queries :: ReadOk(cl, s.writes, r))
  }

  // ----- every step keeps it -----------------------------------------------------------------

  ghost predicate Grows(st: map<Addr, set<StatEntry>>, st': map<Addr, set<StatEntry>>) {
    forall a :: Stored(st, a) <= Stored(st', a)
  }

  lemma {:induction false} WriteGrows(cl: Cluster, st: map<Addr, set<StatEntry>>, st': map<Addr, set<StatEntry>>, w: WriteOp)
    requires cl.Valid() && WriteOk(cl, st, w) && Grows(st, st')
    ensures WriteOk(cl, st', w)
  {
    forall m | m in w.remotes ensures RemoteOk(w, st', m) {
      assert RemoteOk(w, st, m) && Stored(st, m.owner) <= Stored(st', m.owner);
    }
    forall a | a in w.ackers ensures w.entry in Stored(st', a) {
      assert Stored(st, a) <= Stored(st', a);
    }
  }

  /** A step of a write: its entry stays, and once acknowledged so do its verdict and ackers. */
  ghost predicate Evolves(w: WriteOp, w': WriteOp) {
    w'.entry == w.entry && (w.result == Some(true) ==> w'.result == Some(true) && w'.ackers == w.ackers)
  }

  lemma {:induction false} ReadEvolves(cl: Cluster, writes: seq<WriteOp>, writes': seq<WriteOp>, r: ReadOp)
    requires cl.Valid() && ReadOk(cl, writes, r)
    requires |writes| <= |writes'| && forall i :: 0 <= i < |writes| ==> Evolves(writes[i], writes'[i])
    ensures ReadOk(cl, writes', r)
  {
    if r.best.Some? {
      var i :| 0 <= i < |writes| && writes[i].entry == r.best.value;
      assert Evolves(writes[i], writes'[i]);
      assert writes'[i].entry == r.best.value;
    }
    forall i | i in r.finished
      ensures 0 <= i < |writes'| && writes'[i].result == Some(true) && Covers(r, writes'[i])
    {
      assert Evolves(writes[i], writes'[i]) && Covers(r, writes[i]);
    }
  }

  lemma {:induction false} WroteEvolves(writes: seq<WriteOp>, writes': seq<WriteOp>, e: StatEntry)
    requires |writes| <= |writes'| && forall i :: 0 <= i < |writes| ==> Evolves(writes[i], writes'[i])
    requires Wrote(writes, e)
    ensures Wrote(writes', e)
  {
    var i :| 0 <= i < |writes| && writes[i].entry == e;
    assert Evolves(writes[i], writes'[i]) && writes'[i].entry == e;
  }

  /** What the replicas hold after a step of write `w`: at most its entry is new, at one of them. */
  ghost predicate StoresStep(st: map<Addr, set<StatEntry>>, st': map<Addr, set<StatEntry>>, e: StatEntry) {
    Grows(st, st') && forall a :: Stored(st', a) <= Stored(st, a) + {e}
  }

  lemma {:induction false} WithEntryStep(st: map<Addr, set<StatEntry>>, a: Addr, e: StatEntry)
    ensures StoresStep(st, WithEntry(st, a, e), e) && e in Stored(WithEntry(st, a, e), a)
    ensures StoresStep(st, st, e)
  {}

  /** A step that replaces one write and perhaps stores its entry keeps the invariant. */
  lemma {:induction false} WriteStepKeeps(cl: Cluster, s: State, w: nat, w': WriteOp, st': map<Addr, set<StatEntry>>)
    requires cl.Valid() && Inv(cl, s) && w < |s.writes|
    requires WriteOk(cl, st', w') && Evolves(s.writes[w], w') && StoresStep(s.stores, st', w'.entry)
    ensures Inv(cl, s.(writes := s.writes[w := w'], stores := st'))
  {
    hide WriteOk, ReadOk, Wrote;
    var writes' := s.writes[w := w'];
    forall i | 0 <= i < |writes'| ensures Evolves(s.writes[i], writes'[i]) && WriteOk(cl, st', writes'[i]) {
      assert WriteOk(cl, s.stores, s.writes[i]);
      WriteGrows(cl, s.stores, st', s.writes[i]);
    }
    forall r | r in s.queries ensures ReadOk(cl, writes', r) {
      ReadEvolves(cl, s.writes, writes', r);
    }
    forall a, e | a in st' && e in st'[a] ensures Wrote(writes', e) {
      assert Stored(st', a) <= Stored(s.stores, a) + {w'.entry};
      NewWrote(writes', w);
      if e != w'.entry { WroteEvolves(s.writes, writes', e); }
    }
  }

  lemma {:induction false} NewWrote(writes: seq<WriteOp>, w: nat)
    requires w < |writes|
    ensures Wrote(writes, writes[w].entry)
  {}

  lemma {:induction false} PrepareOk(cl: Cluster, st: map<Addr, set<StatEntry>>, st': map<Addr, set<StatEntry>>, w: WriteOp,
                                     alive: bool, ok: bool)
    requires cl.Valid() && WriteOk(cl, st', w) && w.cursor < |w.owners|
    requires ok && w.owners[w.cursor] == w.self ==> w.entry in Stored(st', w.self)
    ensures WriteOk(cl, st', Prepared(w, alive, ok)) && Evolves(w, Prepared(w, alive, ok))
  {
    var owner := w.owners[w.cursor];
    var w' := Prepared(w, alive, ok);
    assert w.owners[..w.cursor + 1] == w.owners[..w.cursor] + [owner];
    assert owner !in w.owners[..w.cursor];
    assert owner !in w.ackers;
    forall m | m in w'.remotes ensures RemoteOk(w', st', m) {
      if m in w.remotes { assert RemoteOk(w, st', m); }
    }
    forall i | 0 <= i < |w.remotes| ensures w.remotes[i].owner != owner {
      assert RemoteOk(w, st', w.remotes[i]);
    }
  }

  lemma {:induction false} RemoteStepOk(cl: Cluster, st: map<Addr, set<StatEntry>>, w: WriteOp, i: nat, m': Remote)
    requires cl.Valid() && WriteOk(cl, st, w) && i < |w.remotes| && m'.owner == w.remotes[i].owner
    requires RemoteOk(w, st, m')
    ensures WriteOk(cl, st, w.(remotes := w.remotes[i := m'])) && Evolves(w, w.(remotes := w.remotes[i := m']))
  {
    var w' := w.(remotes := w.remotes[i := m']);
    forall m | m in w'.remotes ensures RemoteOk(w', st, m) {
      assert m == m' || m in w.remotes;
      assert RemoteOk(w, st, m);
    }
  }

  lemma {:induction false} CollectOk(cl: Cluster, st: map<Addr, set<StatEntry>>, w: WriteOp, i: nat)
    requires cl.Valid() && WriteOk(cl, st, w) && i < |w.remotes| && w.remotes[i].reply.Replied? && w.result.None?
    ensures WriteOk(cl, st, Collected(w, i)) && Evolves(w, Collected(w, i))
  {
    hide Need, ReplicaSet, EntryKey;
    var m0 := w.remotes[i];
    var w' := Collected(w, i);
    assert RemoteOk(w, st, m0);
    forall j | 0 <= j < |w'.remotes| ensures RemoteOk(w', st, w'.remotes[j]) {
      assert RemoteOk(w, st, w.remotes[j]);
      if j != i { assert w.remotes[j].owner != m0.owner; }
    }
  }

  lemma {:induction false} FinishOk(cl: Cluster, st: map<Addr, set<StatEntry>>, w: WriteOp)
    requires cl.Valid() && WriteOk(cl, st, w) && FannedOut(w) && w.result.None?
    ensures var w' := w.(result := Some(w.acks >= Need(w.owners, WRITE_QUORUM))); WriteOk(cl, st, w') && Evolves(w, w')
  {
    var w' := w.(result := Some(w.acks >= Need(w.owners, WRITE_QUORUM)));
    forall m | m in w'.remotes ensures RemoteOk(w', st, m) { assert RemoteOk(w, st, m); }
  }

  lemma {:induction false} StartWriteKeeps(cl: Cluster, s: State, self: Addr, e: StatEntry)
    requires cl.Valid() && Inv(cl, s) && Sane(e)
    ensures Inv(cl, Apply(cl, s, StartWrite(self, e)))
  {
    hide ReadOk, Wrote;
    var s' := Apply(cl, s, StartWrite(self, e));
    OwnersAreReplicaSet(cl, self, e.entityId);
    forall r | r in s'.queries ensures ReadOk(cl, s'.writes, r) { ReadEvolves(cl, s.writes, s'.writes, r); }
    forall a, x | a in s.stores && x in s.stores[a] ensures Wrote(s'.writes, x) { WroteEvolves(s.writes, s'.writes, x); }
  }

  lemma {:induction false} WriteSideKeeps(cl: Cluster, s: State, step: Step)
    requires cl.Valid() && Inv(cl, s) && Enabled(s, step)
    requires step.Prepare? || step.Deliver? || step.Answer? || step.Collect? || step.FinishWrite?
    ensures Inv(cl, Apply(cl, s, step))
  {
    hide WriteOk, ReadOk, RemoteOk, Wrote, StoresStep, Prepared, Collected;
    var op := s.writes[step.w];
    var s' := Apply(cl, s, step);
    var op', st' := s'.writes[step.w], s'.stores;
    assert WriteOk(cl, s.stores, op);
    assert StoresStep(s.stores, st', op.entry) && WriteOk(cl, st', op) by {
      WithEntryStep(s.stores, op.self, op.entry);
      if step.Deliver? { WithEntryStep(s.stores, op.remotes[step.i].owner, op.entry); }
      StepGrows(s.stores, st', op.entry);
      WriteGrows(cl, s.stores, st', op);
    }
    assert WriteOk(cl, st', op') && Evolves(op, op') by {
      match step
      case Prepare(_, alive, _, ok) =>
        WithEntryStep(s.stores, op.self, op.entry);
        PrepareOk(cl, s.stores, st', op, alive, ok);
      case Deliver(_, i) =>
        WithEntryStep(s.stores, op.remotes[i].owner, op.entry);
        RemoteFact(cl, st', op, i);
        RemoteStepOk(cl, st', op, i, op.remotes[i].(stored := true));
      case Answer(_, i, ok) =>
        RemoteFact(cl, st', op, i);
        RemoteStepOk(cl, st', op, i, op.remotes[i].(reply := Replied(ok)));
      case Collect(_, i) => CollectOk(cl, st', op, i);
      case FinishWrite(_) => FinishOk(cl, st', op);
    }
    WriteStepKeeps(cl, s, step.w, op', st');
    assert s' == s.(writes := s.writes[step.w := op'], stores := st');
  }

  lemma {:induction false} StepGrows(st: map<Addr, set<StatEntry>>, st': map<Addr, set<StatEntry>>, e: StatEntry)
    requires StoresStep(st, st', e)
    ensures Grows(st, st')
  {}

  /** A stored remote stays well described when it is stored or answers. */
  lemma {:induction false} RemoteFact(cl: Cluster, st: map<Addr, set<StatEntry>>, w: WriteOp, i: nat)
    requires cl.Valid() && WriteOk(cl, st, w) && i < |w.remotes|
    ensures var m := w.remotes[i];
      && (w.entry in Stored(st, m.owner) ==> RemoteOk(w, st, m.(stored := true)))
      && (m.reply.Waiting? ==> RemoteOk(w, st, m.(reply := Replied(false))))
      && (m.reply.Waiting? && m.stored ==> RemoteOk(w, st, m.(reply := Replied(true))))
  {
    assert RemoteOk(w, st, w.remotes[i]);
  }

  lemma {:induction false} StartReadKeeps(cl: Cluster, s: State, self: Addr, req: Request)
    requires cl.Valid() && Inv(cl, s)
    ensures Inv(cl, Apply(cl, s, StartRead(self, req)))
  {
    hide WriteOk, Wrote, SelfFirst;
    var s' := Apply(cl, s, StartRead(self, req));
    OwnersAreReplicaSet(cl, self, req.entityId);
    SelfFirstPermutes(cl.OwnersOf(self, req.entityId), self);
    assert ReadOk(cl, s.writes, s'.queries[|s.queries|]);
  }

  /** What a visit changes. */
  lemma {:induction false} VisitedFields(r: ReadOp, o: Outcome)
    requires r.cursor < |r.owners|
    ensures var r', owner := Visited(r, o), r.owners[r.cursor];
      && r'.self == r.self && r'.req == r.req && r'.owners == r.owners && r'.finished == r.finished
      && r'.cursor == r.cursor + 1
      && r'.responders == (if o.Answered? then r.responders + {owner} else r.responders)
      && r'.responses == (if o.Answered? then r.responses + 1 else r.responses)
      && r'.best == if o.Answered? then PickNewer(r.best, o.entry) else r.best
  {
    hide PickNewer;
  }

  /** One owner's answer covers every acknowledged write that this owner acknowledged. */
  lemma {:induction false} VisitCovers(cl: Cluster, s: State, r: ReadOp, o: Outcome, w: WriteOp)
    requires cl.Valid() && WriteOk(cl, s.stores, w) && Covers(r, w) && r.cursor < |r.owners|
    requires (r.best.Some? ==> Sane(r.best.value)) && (o.Answered? && o.entry.Some? ==> Sane(o.entry.value))
    requires o.Answered? ==> Best(o.entry, ReadKey(r.req), Stored(s.stores, r.owners[r.cursor]))
    ensures Covers(Visited(r, o), w)
  {
    hide Visited, Newer, RemoteOk, EntryKey, Need;
    var owner := r.owners[r.cursor];
    var r' := Visited(r, o);
    VisitedFields(r, o);
    if o.Answered? && EntryKey(w.entry) == ReadKey(r.req) && r'.responders * w.ackers != {} {
      if r.best.Some? && o.entry.Some? { NewerBeatsBoth(r.best.value, o.entry.value); }
      if owner in w.ackers {
        assert w.entry in Stored(s.stores, owner);
      } else {
        var a :| a in r'.responders * w.ackers;
        assert a in r.responders * w.ackers;
      }
    }
  }

  lemma {:induction false} WroteSane(cl: Cluster, s: State, e: StatEntry)
    requires cl.Valid() && (forall w <- s.writes :: WriteOk(cl, s.stores, w)) && Wrote(s.writes, e)
    ensures Sane(e)
  {
    var i :| 0 <= i < |s.writes| && s.writes[i].entry == e;
    assert WriteOk(cl, s.stores, s.writes[i]);
  }

  /** What a visit adds to a read's answer was submitted under its key. */
  lemma {:induction false} VisitBest(cl: Cluster, s: State, r: ReadOp, o: Outcome)
    requires cl.Valid() && StoresOk(s) && (forall w <- s.writes :: WriteOk(cl, s.stores, w))
    requires ReadOk(cl, s.writes, r) && r.cursor < |r.owners|
    requires o.Answered? ==> Best(o.entry, ReadKey(r.req), Stored(s.stores, r.owners[r.cursor]))
    ensures (r.best.Some? ==> Sane(r.best.value)) && (o.Answered? && o.entry.Some? ==> Sane(o.entry.value))
    ensures var best := Visited(r, o).best;
      best.Some? ==> EntryKey(best.value) == ReadKey(r.req) && Wrote(s.writes, best.value)
  {
    hide WriteOk, Wrote, Covers, SelfFirst, Best, AtLeast, StoresOk, Visited, Newer, EntryKey, Distinct;
    VisitedFields(r, o);
    if r.best.Some? { WroteSane(cl, s, r.best.value); }
    if o.Answered? && o.entry.Some? {
      BestMember(s, o.entry, ReadKey(r.req), r.owners[r.cursor]);
      WroteSane(cl, s, o.entry.value);
      if r.best.Some? { NewerBeatsBoth(r.best.value, o.entry.value); }
    }
  }

  /** A visit counts a new responder. */
  lemma {:induction false} VisitCounts(r: ReadOp, o: Outcome)
    requires Distinct(r.owners) && r.cursor < |r.owners|
    requires |r.responders| == r.responses && forall a <- r.responders :: a in r.owners[..r.cursor]
    ensures var r' := Visited(r, o);
      |r'.responders| == r'.responses && forall a <- r'.responders :: a in r'.owners[..r'.cursor]
  {
    hide Visited;
    VisitedFields(r, o);
    var owner := r.owners[r.cursor];
    assert owner !in r.owners[..r.cursor] && r.owners[..r.cursor + 1] == r.owners[..r.cursor] + [owner];
  }

  lemma {:induction false} VisitOk(cl: Cluster, s: State, r: ReadOp, o: Outcome)
    requires cl.Valid() && StoresOk(s) && (forall w <- s.writes :: WriteOk(cl, s.stores, w))
    requires ReadOk(cl, s.writes, r) && r.cursor < |r.owners|
    requires o.Answered? ==> Best(o.entry, ReadKey(r.req), Stored(s.stores, r.owners[r.cursor]))
    ensures ReadOk(cl, s.writes, Visited(r, o))
  {
    hide WriteOk, Wrote, Covers, SelfFirst, Best, AtLeast, StoresOk, PickNewer, Distinct, Visited;
    VisitedFields(r, o);
    VisitBest(cl, s, r, o);
    VisitCounts(r, o);
    var r' := Visited(r, o);
    forall i | i in r'.finished
      ensures 0 <= i < |s.writes| && s.writes[i].result == Some(true) && Covers(r', s.writes[i])
    {
      VisitCovers(cl, s, r, o, s.writes[i]);
    }
  }

  lemma {:induction false} VisitKeeps(cl: Cluster, s: State, k: nat, o: Outcome)
    requires cl.Valid() && Inv(cl, s) && Enabled(s, Visit(k, o))
    ensures Inv(cl, Apply(cl, s, Visit(k, o)))
  {
    hide WriteOk, ReadOk, Wrote, Best, Visited;
    VisitOk(cl, s, s.queries[k], o);
  }

  lemma {:induction false} BestMember(s: State, e: Option<StatEntry>, k: Key, a: Addr)
    requires StoresOk(s) && e.Some? && Best(e, k, Stored(s.stores, a))
    ensures EntryKey(e.value) == k && Wrote(s.writes, e.value)
  {}

  lemma {:induction false} StepKeeps(cl: Cluster, s: State, step: Step)
    requires cl.Valid() && Inv(cl, s) && Enabled(s, step)
    ensures Inv(cl, Apply(cl, s, step))
  {
    match step
    case StartWrite(self, e) => StartWriteKeeps(cl, s, self, e);
    case StartRead(self, req) => StartReadKeeps(cl, s, self, req);
    case Visit(k, o) => VisitKeeps(cl, s, k, o);
    case _ => WriteSideKeeps(cl, s, step);
  }

  lemma {:induction false} RunKeeps(cl: Cluster, run: seq<Step>)
    requires cl.Valid() && Exec(cl, run).Some?
    ensures Inv(cl, Exec(cl, run).value)
  {
    hide Apply, Enabled;
    if run != [] {
      var n := |run| - 1;
      RunKeeps(cl, run[..n]);
      StepKeeps(cl, Exec(cl, run[..n]).value, run[n]);
    }
  }

  // ----- the quorum theorem -------------------------------------------------------------------

  /** Two sets of owners that are too many to be apart meet. */
  lemma {:induction false} SetsMeet(owners: seq<Addr>, a: set<Addr>, b: set<Addr>)
    requires (forall x <- a :: x in owners) && (forall x <- b :: x in owners)
    requires |a| + |b| > |owners|
    ensures a * b != {}
  {
    var all := set x | x in owners;
    SetOfSeq(owners, all);
    if a * b == {} {
      assert |a + b| == |a| + |b|;
      SubsetSize(a + b, all);
    }
  }

  /** The code's quorums, two sets of at least min(2, n) of the n owners, are. */
  lemma {:induction false} QuorumsMeet(owners: seq<Addr>, a: set<Addr>, b: set<Addr>)
    requires ReplicaSet(owners)
    requires (forall x <- a :: x in owners) && (forall x <- b :: x in owners)
    requires |a| >= Need(owners, WRITE_QUORUM) && |b| >= Need(owners, READ_QUORUM)
    ensures a * b != {}
  {
    SetsMeet(owners, a, b);
  }

  lemma {:induction false} SetOfSeq(owners: seq<Addr>, all: set<Addr>)
    requires all == set x | x in owners
    ensures |all| <= |owners|
  {
    if owners != [] {
      var n := |owners| - 1;
      var rest := set x | x in owners[..n];
      SetOfSeq(owners[..n], rest);
      assert all == rest + {owners[n]};
    }
  }

  lemma {:induction false} SubsetSize(a: set<Addr>, b: set<Addr>)
    requires a <= b
    ensures |a| <= |b|
  {
    assert b == a + (b - a);
  }

  /** The acknowledged write `i` is one that read `k` has to reflect. */
  ghost predicate Owes(cl: Cluster, s: State, k: nat, i: nat) {
    && k < |s.queries| && i in s.queries[k].finished
    && i < |s.writes| && s.writes[i].entry.entityId == s.queries[k].req.entityId
    && EntryKey(s.writes[i].entry) == ReadKey(s.queries[k].req)
    && (cl.ring != [] || s.writes[i].self == s.queries[k].self)
  }

  /** In every run, a read whose responses and a write quorum exceed the owners holds an entry
      that some client submitted under the key, of rank at least that of every write of the
      entity that had been acknowledged when the read began, whoever coordinated it. */
  lemma {:induction false} OverlappingReadIsFresh(cl: Cluster, run: seq<Step>, k: nat, i: nat)
    requires cl.Valid() && Exec(cl, run).Some? && Owes(cl, Exec(cl, run).value, k, i)
    requires var r := Exec(cl, run).value.queries[k]; r.responses + Need(r.owners, WRITE_QUORUM) > |r.owners|
    ensures var s := Exec(cl, run).value; var r := s.queries[k];
      && r.best.Some? && AtLeast(r.best.value, s.writes[i].entry)
      && EntryKey(r.best.value) == ReadKey(r.req) && Wrote(s.writes, r.best.value)
  {
    hide Exec, AtLeast, Wrote, SelfFirst, Owners, RemoteOk;
    var s := Exec(cl, run).value;
    var r, w := s.queries[k], s.writes[i];
    RunKeeps(cl, run);
    assert ReadOk(cl, s.writes, r) && WriteOk(cl, s.stores, w) && Covers(r, w);
    SameOwners(cl, r.self, w.self, w.entry.entityId);
    SelfFirstPermutes(w.owners, r.self);
    SetsMeet(w.owners, w.ackers, r.responders);
    assert r.responders * w.ackers == w.ackers * r.responders;
  }

  /** The quorum theorem: the responses the code waits for suffice. */
  lemma {:induction false} QuorumReadIsFresh(cl: Cluster, run: seq<Step>, k: nat, i: nat)
    requires cl.Valid() && Exec(cl, run).Some? && Owes(cl, Exec(cl, run).value, k, i)
    requires var r := Exec(cl, run).value.queries[k]; r.responses >= Need(r.owners, READ_QUORUM)
    ensures var s := Exec(cl, run).value; var r := s.queries[k];
      && r.best.Some? && AtLeast(r.best.value, s.writes[i].entry)
      && EntryKey(r.best.value) == ReadKey(r.req) && Wrote(s.writes, r.best.value)
  {
    hide AtLeast, Wrote, SelfFirst, Owners, WriteOk, StoresOk, Covers;
    RunKeeps(cl, run);
    var s := Exec(cl, run).value;
    var r := s.queries[k];
    assert ReadOk(cl, s.writes, r);
    OwnersAreReplicaSet(cl, r.self, r.req.entityId);
    SelfFirstPermutes(cl.OwnersOf(r.self, r.req.entityId), r.self);
    OverlappingReadIsFresh(cl, run, k, i);
  }

  // ----- when a read stops -----------------------------------------------------------------

  /** A read stops early exactly when it holds a value and has min(2, n) responses; only a
      coordinator that is the sole owner needs no test. */
  ghost predicate StopsExactly(r: ReadOp) {
    r.stopped <==> r.best.Some? && r.responses >= Need(r.owners, READ_QUORUM) && r.owners != [r.self]
  }

  /** The coordinator comes first and each owner once, so responses never exceed the visits. */
  ghost predicate Orderly(r: ReadOp) {
    && Distinct(r.owners) && r.owners != [] && r.responses <= r.cursor <= |r.owners|
    && (r.self in r.owners ==> r.owners[0] == r.self)
  }

  lemma {:induction false} VisitStops(r: ReadOp, o: Outcome)
    requires Orderly(r) && StopsExactly(r) && !r.Over() && (r.owners[r.cursor] == r.self ==> o.Answered?)
    ensures Orderly(Visited(r, o)) && StopsExactly(Visited(r, o))
  {
    hide PickNewer;
    var owner := r.owners[r.cursor];
    assert owner in r.owners;
    assert owner == r.self ==> r.cursor == 0;
  }

  lemma {:induction false} StartStops(cl: Cluster, self: Addr, req: Request, finished: set<nat>)
    requires cl.Valid()
    ensures var r := ReadOp(self, req, SelfFirst(cl.OwnersOf(self, req.entityId), self), 0, 0, None, false, {}, finished);
      Orderly(r) && StopsExactly(r)
  {
    hide SelfFirst, Owners;
    OwnersAreReplicaSet(cl, self, req.entityId);
    SelfFirstPermutes(cl.OwnersOf(self, req.entityId), self);
  }

  lemma {:induction false} StepStops(cl: Cluster, s: State, step: Step)
    requires cl.Valid() && Enabled(s, step)
    requires forall r <- s.queries :: Orderly(r) && StopsExactly(r)
    ensures forall r <- Apply(cl, s, step).queries :: Orderly(r) && StopsExactly(r)
  {
    hide Orderly, StopsExactly, Visited, Best, SelfFirst;
    var s' := Apply(cl, s, step);
    match step
    case StartRead(self, req) => StartStops(cl, self, req, Acknowledged(s.writes));
    case Visit(k, o) => VisitStops(s.queries[k], o);
    case _ => assert s'.queries == s.queries;
  }

  /** In every run, every read stops exactly then: a read that is over has visited every owner,
      or holds a value from at least min(2, n) responses. */
  lemma {:induction false} ReadsStopExactly(cl: Cluster, run: seq<Step>)
    requires cl.Valid() && Exec(cl, run).Some?
    ensures forall r <- Exec(cl, run).value.queries :: Orderly(r) && StopsExactly(r)
    ensures forall r <- Exec(cl, run).value.queries :: r.Over() ==>
      r.cursor == |r.owners| || (r.best.Some? && r.responses >= Need(r.owners, READ_QUORUM))
  {
    hide Apply, Enabled;
    if run != [] {
      var n := |run| - 1;
      ReadsStopExactly(cl, run[..n]);
      StepStops(cl, Exec(cl, run[..n]).value, run[n]);
    }
  }

  /** In the run, each of `rs` answers read `k` whenever the read visits it. */
  ghost predicate AnswersAlways(cl: Cluster, run: seq<Step>, k: nat, rs: set<Addr>)
    requires cl.Valid() && Exec(cl, run).Some?
  {
    run != [] ==>
      var n := |run| - 1;
      && AnswersAlways(cl, run[..n], k, rs)
      && (run[n].Visit? && run[n].r == k ==>
            var r := Exec(cl, run[..n]).value.queries[k];
            r.owners[r.cursor] in rs ==> run[n].outcome.Answered?)
  }

  lemma {:induction false} VisitHears(r: ReadOp, o: Outcome, rs: set<Addr>)
    requires r.cursor < |r.owners| && (r.owners[r.cursor] in rs ==> o.Answered?)
    requires forall a <- rs :: a in r.owners[..r.cursor] ==> a in r.responders
    ensures var r' := Visited(r, o);
      && r'.cursor <= |r'.owners|
      && forall a <- rs :: a in r'.owners[..r'.cursor] ==> a in r'.responders
  {
    hide Visited;
    VisitedFields(r, o);
    assert r.owners[..r.cursor + 1] == r.owners[..r.cursor] + [r.owners[r.cursor]];
  }

  /** Whoever always answers is counted as soon as it was visited. */
  lemma {:induction false} AnswersAreCounted(cl: Cluster, run: seq<Step>, k: nat, rs: set<Addr>)
    requires cl.Valid() && Exec(cl, run).Some? && AnswersAlways(cl, run, k, rs) && k < |Exec(cl, run).value.queries|
    ensures var r := Exec(cl, run).value.queries[k];
      r.cursor <= |r.owners| && forall a <- rs :: a in r.owners[..r.cursor] ==> a in r.responders
  {
    hide Visited, Apply, Enabled;
    var n := |run| - 1;
    var before := Exec(cl, run[..n]).value;
    QueryStep(cl, before, run[n], k);
    if k < |before.queries| {
      AnswersAreCounted(cl, run[..n], k, rs);
      if run[n].Visit? && run[n].r == k { VisitHears(before.queries[k], run[n].outcome, rs); }
    }
  }

  /** A step leaves a read alone, visits its next owner, or starts it. */
  lemma {:induction false} QueryStep(cl: Cluster, s: State, step: Step, k: nat)
    requires cl.Valid() && Enabled(s, step) && k < |Apply(cl, s, step).queries|
    ensures var r' := Apply(cl, s, step).queries[k];
      if k >= |s.queries| then r'.cursor == 0
      else if step.Visit? && step.r == k then s.queries[k].cursor < |s.queries[k].owners| && r' == Visited(s.queries[k], step.outcome)
      else r' == s.queries[k]
  {
    hide Visited, Best, SelfFirst, Prepared, Collected, Acknowledged, Sane;
  }

  /** A finished read collected its quorum if at least min(2, n) owners always answered. */
  lemma {:induction false} FinishedReadHasQuorum(cl: Cluster, run: seq<Step>, k: nat, rs: set<Addr>)
    requires cl.Valid() && Exec(cl, run).Some? && k < |Exec(cl, run).value.queries| && Exec(cl, run).value.queries[k].Over()
    requires var r := Exec(cl, run).value.queries[k];
      (forall a <- rs :: a in r.owners) && |rs| >= Need(r.owners, READ_QUORUM)
    requires AnswersAlways(cl, run, k, rs)
    ensures var r := Exec(cl, run).value.queries[k]; r.responses >= Need(r.owners, READ_QUORUM)
  {
    hide Exec, AnswersAlways, StopsExactly, WriteOk, StoresOk, Covers, SelfFirst, Owners;
    RunKeeps(cl, run);
    ReadsStopExactly(cl, run);
    AnswersAreCounted(cl, run, k, rs);
    var r := Exec(cl, run).value.queries[k];
    assert ReadOk(cl, Exec(cl, run).value.writes, r);
    if r.cursor == |r.owners| {
      assert r.owners[..r.cursor] == r.owners;
      SubsetSize(rs, r.responders);
    }
  }

  /** Freshness without counting responses: a finished read reflects every write acknowledged
      before it began if at least min(2, n) owners answer whenever they are asked. */
  lemma {:induction false} FinishedReadIsFresh(cl: Cluster, run: seq<Step>, k: nat, i: nat, rs: set<Addr>)
    requires cl.Valid() && Exec(cl, run).Some? && Owes(cl, Exec(cl, run).value, k, i) && Exec(cl, run).value.queries[k].Over()
    requires var r := Exec(cl, run).value.queries[k];
      (forall a <- rs :: a in r.owners) && |rs| >= Need(r.owners, READ_QUORUM)
    requires AnswersAlways(cl, run, k, rs)
    ensures var s := Exec(cl, run).value; var r := s.queries[k];
      && r.best.Some? && AtLeast(r.best.value, s.writes[i].entry)
      && EntryKey(r.best.value) == ReadKey(r.req) && Wrote(s.writes, r.best.value)
  {
    hide Exec, AnswersAlways;
    FinishedReadHasQuorum(cl, run, k, rs);
    QuorumReadIsFresh(cl, run, k, i);
  }

  /** With a non-empty ring every coordinator picks the same owners. */
  lemma {:induction false} SameOwners(cl: Cluster, a: Addr, b: Addr, id: Bytes)
    requires cl.Valid() && (cl.ring != [] || a == b)
    ensures cl.OwnersOf(a, id) == cl.OwnersOf(b, id)
  {
    if cl.ring != [] {
      OwnersBound(cl.ring, cl.slots, cl.hash(id), cl.slots.Values);
      assert cl.ring[0] in cl.ring;
      assert cl.slots[cl.ring[0]] in Owners(cl.ring, cl.slots, cl.hash(id));
    }
  }

  lemma {:induction false} ExecSnoc(cl: Cluster, run: seq<Step>, step: Step)
    requires cl.Valid() && Exec(cl, run).Some? && Enabled(Exec(cl, run).value, step)
    ensures Exec(cl, run + [step]) == Some(Apply(cl, Exec(cl, run).value, step))
  {
    hide Apply, Enabled;
    assert (run + [step])[..|run|] == run;
  }

  /** State `s` with one more read that has found its first `n` owners dead. */
  ghost function Blind(s: State, self: Addr, req: Request, owners: seq<Addr>, n: nat): State {
    s.(queries := s.queries + [ReadOp(self, req, owners, n, 0, None, false, {}, Acknowledged(s.writes))])
  }

  lemma {:induction false} DeadVisit(cl: Cluster, s: State, self: Addr, req: Request, owners: seq<Addr>, n: nat)
    requires cl.Valid() && n < |owners| && self !in owners
    ensures var step := Visit(|s.queries|, Dead); var b := Blind(s, self, req, owners, n);
      Enabled(b, step) && Apply(cl, b, step) == Blind(s, self, req, owners, n + 1)
  {
    hide Best, Acknowledged;
    var b := Blind(s, self, req, owners, n);
    var r := b.queries[|s.queries|];
    assert owners[n] in owners;
    assert Visited(r, Dead) == r.(cursor := n + 1);
  }

  lemma {:induction false} BlindFrom(cl: Cluster, run: seq<Step>, s: State, self: Addr, req: Request, owners: seq<Addr>, n: nat)
    returns (run': seq<Step>)
    requires cl.Valid() && n <= |owners| && self !in owners
    requires Exec(cl, run) == Some(Blind(s, self, req, owners, n))
    ensures run <= run' && Exec(cl, run') == Some(Blind(s, self, req, owners, |owners|))
    decreases |owners| - n
  {
    hide Exec, Apply, Enabled, Blind;
    run' := run;
    if n < |owners| {
      DeadVisit(cl, s, self, req, owners, n);
      ExecSnoc(cl, run, Visit(|s.queries|, Dead));
      run' := BlindFrom(cl, run + [Visit(|s.queries|, Dead)], s, self, req, owners, n + 1);
    }
  }

  /** The quorum condition matters: a coordinator that owns nothing and takes every owner for
      dead answers "not found", whatever has been acknowledged before. */
  lemma {:induction false} BlindReadFindsNothing(cl: Cluster, run: seq<Step>, self: Addr, req: Request) returns (run': seq<Step>)
    requires cl.Valid() && Exec(cl, run).Some? && self !in cl.OwnersOf(self, req.entityId)
    ensures run <= run' && Exec(cl, run').Some?
    ensures var s, s' := Exec(cl, run).value, Exec(cl, run').value;
      && s'.writes == s.writes && s'.stores == s.stores && |s'.queries| == |s.queries| + 1
      && var r := s'.queries[|s.queries|];
        && r.req == req && r.finished == Acknowledged(s.writes) && r.Over() && r.best.None?
        && r.responses == 0
  {
    var s := Exec(cl, run).value;
    var k := |s.queries|;
    var owners := SelfFirst(cl.OwnersOf(self, req.entityId), self);
    SelfFirstPermutes(cl.OwnersOf(self, req.entityId), self);
    assert Enabled(s, StartRead(self, req));
    ExecSnoc(cl, run, StartRead(self, req));
    run' := run + [StartRead(self, req)];
    hide Exec, SelfFirst, Apply, Enabled, Blind;
    assert Exec(cl, run').value == Blind(s, self, req, owners, 0) by { StartBlind(cl, s, self, req); }
    run' := BlindFrom(cl, run', s, self, req, owners, 0);
    BlindFields(s, self, req, owners);
  }

  lemma {:induction false} StartBlind(cl: Cluster, s: State, self: Addr, req: Request)
    requires cl.Valid()
    ensures Apply(cl, s, StartRead(self, req)) == Blind(s, self, req, SelfFirst(cl.OwnersOf(self, req.entityId), self), 0)
  {}

  lemma {:induction false} BlindFields(s: State, self: Addr, req: Request, owners: seq<Addr>)
    ensures var s' := Blind(s, self, req, owners, |owners|);
      && s'.writes == s.writes && s'.stores == s.stores && |s'.queries| == |s.queries| + 1
      && var r := s'.queries[|s.queries|];
        && r.req == req && r.finished == Acknowledged(s.writes) && r.Over() && r.best.None?
        && r.responses == 0
  {}

  // ----- the coordinator's loops --------------------------------------------------------------

  /** Write's first loop: write locally when this node is an owner, skip dead peers. */
  method SelectRemotes(owners: seq<Addr>, self: Addr, alive: Addr -> bool, localOk: bool)
    returns (acks: nat, remotes: seq<Addr>)
    requires Distinct(owners)
    ensures acks == if self in owners && localOk then 1 else 0
    ensures Distinct(remotes) && forall a :: a in remotes <==> a in owners && a != self && alive(a)
  {
    acks, remotes := 0, [];
    for i := 0 to |owners|
      invariant acks == if self in owners[..i] && localOk then 1 else 0
      invariant Distinct(remotes) && forall a :: a in remotes <==> a in owners[..i] && a != self && alive(a)
    {
      var owner := owners[i];
      assert owners[..i + 1] == owners[..i] + [owner] && owner !in owners[..i];
      if owner == self {
        if localOk { acks := acks + 1; }
      } else if alive(owner) {
        remotes := remotes + [owner];
      }
    }
    assert owners[..|owners|] == owners;
  }

  /** The machine's fan-out over all owners, with given liveness and local outcome. */
  function PreparedAll(w: WriteOp, alive: Addr -> bool, localOk: bool): WriteOp
    decreases |w.owners| - w.cursor
  {
    if w.cursor >= |w.owners| then w
    else PreparedAll(Prepared(w, alive(w.owners[w.cursor]), localOk), alive, localOk)
  }

  /** It counts one acknowledgement exactly for a successful local write at an owner, and calls
      exactly the other live owners, in their order. */
  lemma {:induction false} FanOutIsExact(w: WriteOp, alive: Addr -> bool, localOk: bool)
    requires Distinct(w.owners) && w.cursor <= |w.owners|
    ensures var w', rest := PreparedAll(w, alive, localOk), w.owners[w.cursor..];
      && w'.acks == w.acks + (if w.self in rest && localOk then 1 else 0)
      && w'.ackers == w.ackers + (if w.self in rest && localOk then {w.self} else {})
      && w'.remotes == w.remotes + Called(rest, w.self, alive)
      && w'.cursor == |w.owners| && w'.result == w.result
    decreases |w.owners| - w.cursor
  {
    hide Distinct, Called, Prepared;
    if w.cursor == |w.owners| {
      CalledNothing(w.self, alive);
    } else {
      var owner, next := w.owners[w.cursor], Prepared(w, alive(w.owners[w.cursor]), localOk);
      RestOfOwners(w.owners, w.cursor);
      PreparedFields(w, alive(owner), localOk);
      FanOutIsExact(next, alive, localOk);
      CalledStep(w.owners[w.cursor..], w.self, alive);
    }
  }

  lemma {:induction false} RestOfOwners(owners: seq<Addr>, n: nat)
    requires Distinct(owners) && n < |owners|
    ensures owners[n..] != [] && owners[n..][0] == owners[n] && owners[n..][1..] == owners[n + 1..]
    ensures owners[n] !in owners[n + 1..] && forall a :: a in owners[n..] <==> a == owners[n] || a in owners[n + 1..]
  {
    assert owners[n..] == [owners[n]] + owners[n + 1..];
  }

  lemma {:induction false} PreparedFields(w: WriteOp, alive: bool, ok: bool)
    requires w.cursor < |w.owners|
    ensures var w', owner := Prepared(w, alive, ok), w.owners[w.cursor];
      && w'.cursor == w.cursor + 1 && w'.owners == w.owners && w'.self == w.self && w'.result == w.result
      && w'.acks == w.acks + (if owner == w.self && ok then 1 else 0)
      && w'.ackers == w.ackers + (if owner == w.self && ok then {w.self} else {})
      && w'.remotes == w.remotes + if owner != w.self && alive then [Remote(owner, false, Waiting)] else []
  {}

  lemma {:induction false} CalledNothing(self: Addr, alive: Addr -> bool)
    ensures Called([], self, alive) == []
  {}

  lemma {:induction false} CalledStep(owners: seq<Addr>, self: Addr, alive: Addr -> bool)
    requires owners != []
    ensures Called(owners, self, alive) ==
      (if owners[0] != self && alive(owners[0]) then [Remote(owners[0], false, Waiting)] else []) + Called(owners[1..], self, alive)
  {}

  /** One open call to every live owner other than the coordinator. */
  function Called(owners: seq<Addr>, self: Addr, alive: Addr -> bool): (calls: seq<Remote>)
    ensures forall m <- calls :: m.owner in owners && m.owner != self && alive(m.owner) && !m.stored && m.reply == Waiting
    ensures forall a <- owners :: a != self && alive(a) ==> Remote(a, false, Waiting) in calls
  {
    if owners == [] then []
    else if owners[0] != self && alive(owners[0]) then [Remote(owners[0], false, Waiting)] + Called(owners[1..], self, alive)
    else Called(owners[1..], self, alive)
  }

  function Trues(results: seq<bool>): nat {
    if results == [] then 0 else Trues(results[..|results| - 1]) + if results[|results| - 1] then 1 else 0
  }

  /** The successful replies, as a set of positions. */
  function Successes(results: seq<bool>): set<nat> {
    set i | 0 <= i < |results| && results[i]
  }

  lemma {:induction false} TruesAreSuccesses(results: seq<bool>)
    ensures Trues(results) == |Successes(results)|
  {
    if results == [] {
      assert Successes(results) == {};
    } else {
      var n := |results| - 1;
      TruesAreSuccesses(results[..n]);
      assert Successes(results) == Successes(results[..n]) + if results[n] then {n} else {};
    }
  }

  lemma {:induction false} TruesMonotone(results: seq<bool>, i: nat)
    requires i <= |results|
    ensures Trues(results[..i]) <= Trues(results) && (i < |results| ==>
      Trues(results[..i + 1]) == Trues(results[..i]) + if results[i] then 1 else 0)
  {
    if i < |results| {
      assert results[..i + 1][..i] == results[..i];
      var n := |results| - 1;
      TruesMonotone(results[..n], i);
      assert results[..n][..i] == results[..i];
    } else {
      assert results[..i] == results;
    }
  }

  /** Waiting for replies in the order they arrive, stopping at the quorum: the verdict is that
      of counting every reply, so it does not depend on the order. */
  method AwaitQuorum(localAcks: nat, need: nat, results: seq<bool>) returns (success: bool)
    ensures success <==> localAcks + |Successes(results)| >= need
  {
    TruesAreSuccesses(results);
    hide Successes;
    var acks := localAcks;
    var i := 0;
    while i < |results| && acks < need
      invariant 0 <= i <= |results| && acks == localAcks + Trues(results[..i])
    {
      TruesMonotone(results, i);
      if results[i] { acks := acks + 1; }
      i := i + 1;
    }
    TruesMonotone(results, i);
    if i == |results| { assert results[..i] == results; }
    success := acks >= need;
  }

  /** The rest of a read whose owners behave as `visit` says. */
  ghost function ReadOn(r: ReadOp, visit: Addr -> Outcome): ReadOp
    decreases |r.owners| - r.cursor
  {
    if r.Over() then r else ReadOn(Visited(r, visit(r.owners[r.cursor])), visit)
  }

  /** Read's loop takes exactly the machine's visits. */
  method GatherResponses(start: ReadOp, visit: Addr -> Outcome) returns (best: Option<StatEntry>, responses: nat)
    requires start.cursor == 0 && start.responses == 0 && start.best.None? && !start.stopped
    requires visit(start.self).Answered?
    ensures var r := ReadOn(start, visit); best == r.best && responses == r.responses
  {
    best, responses := None, 0;
    var need := Need(start.owners, READ_QUORUM);
    var i := 0;
    ghost var r := start;
    while i < |start.owners|
      invariant 0 <= i <= |start.owners| && !r.stopped
      invariant r.cursor == i && r.best == best && r.responses == responses
      invariant r.owners == start.owners && r.self == start.self
      invariant ReadOn(start, visit) == ReadOn(r, visit)
    {
      var owner := start.owners[i];
      var o := visit(owner);
      r := Visited(r, o);
      i := i + 1;
      if o.Answered? {
        responses := responses + 1;
        best := ComputeNewer(best, o.entry);
      }
      if owner != start.self && !o.Dead? && responses >= need && best.Some? { break; }
    }
  }
}
