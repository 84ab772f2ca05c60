/**
 Any number of gossip nodes exchanging packets over UDP: packets may be lost, reordered,
 duplicated and delivered arbitrarily late, so every packet ever sent stays deliverable. Each
 node reads its own clock, which never runs backwards. Nodes start once and do not restart.
 */
module GossipProtocol {
  import opened BigEndian
  import opened Addresses
  import opened Gossip

  datatype Node = Node(view: View, clock: int)

  /** `node` added `about` to its view, or merged an alive report of it, when its clock read `at`. */
  datatype Heard = Heard(node: Addr, about: Addr, at: int)

  datatype World = World(nodes: map<Addr, Node>, packets: set<seq<Report>>, heard: set<Heard>)

  datatype Step =
    | Start(n: Addr, peers: seq<Addr>, clock: int)
    | Advance(n: Addr, clock: int)
    | Tick(n: Addr)
    | Send(n: Addr, packet: seq<Report>)
    | Deliver(n: Addr, packet: seq<Report>)

  /** snapshotLocked: one report per member, in any order. */
  ghost predicate IsSnapshot(v: View, packet: seq<Report>) {
    && (forall r <- packet :: r.addr in v.members && r.incarnation == v.members[r.addr].incarnation
                              && r.status == v.members[r.addr].status)
    && (forall a <- v.members.Keys :: Report(a, v.members[a].incarnation, v.members[a].status) in packet)
  }

  ghost predicate Enabled(w: World, step: Step) {
    match step
    case Start(n, _, _) => n !in w.nodes
    case Advance(n, t) => n in w.nodes && w.nodes[n].clock <= t
    case Tick(n) => n in w.nodes
    case Send(n, packet) => n in w.nodes && IsSnapshot(w.nodes[n].view, packet)
    case Deliver(n, packet) => n in w.nodes && packet in w.packets
  }

  /** What a node hears when it starts, and when it merges a packet. */
  ghost function HeardAtStart(v: View, n: Addr, t: int): set<Heard> {
    set a | a in v.members && a != n :: Heard(n, a, t)
  }

  ghost function HeardInPacket(v: View, n: Addr, packet: seq<Report>, t: int): set<Heard> {
    set r | r in packet && r.addr != n && (r.status == Alive || r.addr !in v.members) :: Heard(n, r.addr, t)
  }

  ghost function Apply(w: World, step: Step): World
    requires Enabled(w, step)
  {
    match step
    case Start(n, peers, t) =>
      var v := Started(n, peers, t);
      World(w.nodes[n := Node(v, t)], w.packets, w.heard + HeardAtStart(v, n, t))
    case Advance(n, t) => w.(nodes := w.nodes[n := w.nodes[n].(clock := t)])
    case Tick(n) =>
      var node := w.nodes[n];
      w.(nodes := w.nodes[n := node.(view := Ticked(node.view, node.clock))])
    case Send(n, packet) => w.(packets := w.packets + {packet})
    case Deliver(n, packet) =>
      var node := w.nodes[n];
      World(w.nodes[n := node.(view := Merged(node.view, packet, node.clock))], w.packets,
            w.heard + HeardInPacket(node.view, n, packet, node.clock))
  }

  ghost function Exec(w: World, run: seq<Step>): Option<World> {
    if run == [] then Some(w)
    else
      var before := Exec(w, run[..|run| - 1]);
      if before.Some? && Enabled(before.value, run[|run| - 1]) then Some(Apply(before.value, run[|run| - 1])) else None
  }

  const EMPTY := World(map[], {}, {})

  // ----- the invariant -----------------------------------------------------------------------

  /** A member's own incarnation; one that never started has not refuted anything. */
  function Own(w: World, a: Addr): nat {
    if a in w.nodes then w.nodes[a].view.incarnation else 0
  }

  ghost predicate ViewBelow(w: World, v: View) {
    forall a <- v.members.Keys :: v.members[a].incarnation <= Own(w, a)
  }

  ghost predicate PacketBelow(w: World, packet: seq<Report>) {
    forall r <- packet :: r.incarnation <= Own(w, r.addr)
  }

  ghost predicate NodeOk(w: World, n: Addr)
    requires n in w.nodes
  {
    var v := w.nodes[n].view;
    && v.self == n && n in v.members && ViewBelow(w, v)
    && forall a <- v.members.Keys :: a != n ==> exists h <- w.heard :: h.node == n && h.about == a
  }

  /** The heartbeat kept for a member is never older than anything heard of it. */
  ghost predicate HeardOk(w: World, h: Heard) {
    && h.node in w.nodes && h.about != h.node && h.at <= w.nodes[h.node].clock
    && h.about in w.nodes[h.node].view.members && w.nodes[h.node].view.members[h.about].heartbeat >= h.at
  }

  ghost predicate Inv(w: World) {
    && (forall n <- w.nodes.Keys :: NodeOk(w, n))
    && (forall p <- w.packets :: PacketBelow(w, p))
    && (forall h <- w.heard :: HeardOk(w, h))
  }

  // ----- every step keeps it --------------------------------------------------------------------

  lemma {:induction false} OwnGrows(w: World, w': World)
    requires forall a :: Own(w, a) <= Own(w', a)
    ensures forall v :: ViewBelow(w, v) ==> ViewBelow(w', v)
    ensures forall p :: PacketBelow(w, p) ==> PacketBelow(w', p)
  {
    forall v: View | ViewBelow(w, v) ensures ViewBelow(w', v) {
      forall a | a in v.members ensures v.members[a].incarnation <= Own(w', a) {
        assert Own(w, a) <= Own(w', a);
      }
    }
    forall p: seq<Report> | PacketBelow(w, p) ensures PacketBelow(w', p) {
      forall r | r in p ensures r.incarnation <= Own(w', r.addr) {
        assert Own(w, r.addr) <= Own(w', r.addr);
      }
    }
  }

  /** A step that changes one node keeps the invariant if it keeps that node's part of it. */
  lemma {:induction false} NodeStepKeeps(w: World, w': World, n: Addr)
    requires Inv(w) && n in w'.nodes && w'.nodes == w.nodes[n := w'.nodes[n]] && w.heard <= w'.heard
    requires Own(w, n) <= Own(w', n) && NodeOk(w', n)
    requires forall p <- w'.packets :: p in w.packets || PacketBelow(w, p)
    requires forall h <- w'.heard :: h !in w.heard || h.node == n ==> HeardOk(w', h)
    ensures Inv(w')
  {
    hide ViewBelow, PacketBelow;
    OwnGrows(w, w');
    forall m | m in w'.nodes && m != n ensures NodeOk(w', m) {
      assert NodeOk(w, m);
    }
    forall h | h in w'.heard ensures HeardOk(w', h) {
      if h in w.heard && h.node != n { assert HeardOk(w, h); }
    }
  }

  lemma {:induction false} StartKeeps(w: World, n: Addr, peers: seq<Addr>, t: int)
    requires Inv(w) && Enabled(w, Start(n, peers, t))
    ensures Inv(Apply(w, Start(n, peers, t)))
  {
    var w' := Apply(w, Start(n, peers, t));
    var v := w'.nodes[n].view;
    forall a | a in v.members && a != n ensures exists h <- w'.heard :: h.node == n && h.about == a {
      assert Heard(n, a, t) in w'.heard;
    }
    assert forall h <- w.heard :: h.node != n by {
      forall h | h in w.heard ensures h.node != n { assert HeardOk(w, h); }
    }
    NodeStepKeeps(w, w', n);
  }

  lemma {:induction false} AdvanceKeeps(w: World, n: Addr, t: int)
    requires Inv(w) && Enabled(w, Advance(n, t))
    ensures Inv(Apply(w, Advance(n, t)))
  {
    var w' := Apply(w, Advance(n, t));
    assert NodeOk(w, n);
    forall h | h in w'.heard && h.node == n ensures HeardOk(w', h) { assert HeardOk(w, h); }
    NodeStepKeeps(w, w', n);
  }

  lemma {:induction false} TickKeeps(w: World, n: Addr)
    requires Inv(w) && Enabled(w, Tick(n))
    ensures Inv(Apply(w, Tick(n)))
  {
    var w' := Apply(w, Tick(n));
    var v, v' := w.nodes[n].view, w'.nodes[n].view;
    assert NodeOk(w, n);
    assert v'.members.Keys == v.members.Keys;
    forall h | h in w'.heard && h.node == n ensures HeardOk(w', h) { assert HeardOk(w, h); }
    NodeStepKeeps(w, w', n);
  }

  lemma {:induction false} SendKeeps(w: World, n: Addr, packet: seq<Report>)
    requires Inv(w) && Enabled(w, Send(n, packet))
    ensures Inv(Apply(w, Send(n, packet)))
  {
    var w' := Apply(w, Send(n, packet));
    assert NodeOk(w, n);
    assert PacketBelow(w, packet);
    OwnGrows(w, w');
    forall m | m in w'.nodes ensures NodeOk(w', m) { assert NodeOk(w, m); }
    forall h | h in w'.heard ensures HeardOk(w', h) { assert HeardOk(w, h); }
  }

  /** What merging reports does to one other member. */
  lemma {:induction false} MergedMember(v: View, rs: seq<Report>, now: int, a: Addr, cap: nat)
    requires a != v.self && (a in v.members ==> v.members[a].incarnation <= cap)
    requires forall r <- rs :: r.addr == a ==> r.incarnation <= cap
    ensures var v' := Merged(v, rs, now);
      && (a in v'.members ==> v'.members[a].incarnation <= cap)
      && (a in v'.members && a !in v.members ==> exists r <- rs :: r.addr == a)
      && (a in v.members ==> a in v'.members && (v'.members[a].heartbeat == now || v'.members[a].heartbeat == v.members[a].heartbeat))
      && ((exists r <- rs :: r.addr == a && (r.status == Alive || a !in v.members)) ==> a in v'.members && v'.members[a].heartbeat == now)
  {
    if rs != [] {
      var n := |rs| - 1;
      MergedMember(v, rs[..n], now, a, cap);
      MergeKeepsSelf(v, rs[..n], now);
      assert forall r :: r in rs <==> r in rs[..n] || r == rs[n];
    }
  }

  lemma {:induction false} MergedSelf(v: View, rs: seq<Report>, now: int)
    requires v.self in v.members
    ensures var v' := Merged(v, rs, now); v'.self == v.self && v.self in v'.members && v'.members[v.self] == v.members[v.self]
  {
    if rs != [] { MergedSelf(v, rs[..|rs| - 1], now); }
  }

  lemma {:induction false} DeliverKeepsHeard(w: World, n: Addr, packet: seq<Report>, h: Heard)
    requires Inv(w) && Enabled(w, Deliver(n, packet))
    requires h in Apply(w, Deliver(n, packet)).heard && (h !in w.heard || h.node == n)
    ensures HeardOk(Apply(w, Deliver(n, packet)), h)
  {
    hide Merged;
    var node := w.nodes[n];
    assert NodeOk(w, n) && PacketBelow(w, packet);
    if h in w.heard {
      assert HeardOk(w, h);
      MergedMember(node.view, packet, node.clock, h.about, Own(w, h.about));
    } else {
      var r :| r in packet && r.addr != n && (r.status == Alive || r.addr !in node.view.members) && h == Heard(n, r.addr, node.clock);
      MergedMember(node.view, packet, node.clock, r.addr, Own(w, r.addr));
    }
  }

  lemma {:induction false} DeliverKeepsNode(w: World, n: Addr, packet: seq<Report>)
    requires Inv(w) && Enabled(w, Deliver(n, packet))
    ensures NodeOk(Apply(w, Deliver(n, packet)), n)
    ensures Own(w, n) <= Own(Apply(w, Deliver(n, packet)), n) <= Own(w, n) + 1
  {
    hide Merged;
    var node, w' := w.nodes[n], Apply(w, Deliver(n, packet));
    var v, v' := node.view, w'.nodes[n].view;
    assert NodeOk(w, n) && PacketBelow(w, packet);
    RefutationRaisesByOne(v, packet, node.clock);
    MergedSelf(v, packet, node.clock);
    forall a | a in v'.members
      ensures v'.members[a].incarnation <= Own(w', a)
      ensures a != n ==> exists h <- w'.heard :: h.node == n && h.about == a
    {
      if a != n {
        MergedMember(v, packet, node.clock, a, Own(w, a));
        if a in v.members {
          var h :| h in w.heard && h.node == n && h.about == a;
          assert h in w'.heard;
        } else {
          var r :| r in packet && r.addr == a;
          assert Heard(n, a, node.clock) in w'.heard;
        }
      }
    }
  }

  lemma {:induction false} DeliverKeeps(w: World, n: Addr, packet: seq<Report>)
    requires Inv(w) && Enabled(w, Deliver(n, packet))
    ensures Inv(Apply(w, Deliver(n, packet)))
  {
    hide Merged, NodeOk, HeardOk, PacketBelow, HeardInPacket;
    var w' := Apply(w, Deliver(n, packet));
    DeliverKeepsNode(w, n, packet);
    forall h | h in w'.heard && (h !in w.heard || h.node == n) ensures HeardOk(w', h) {
      DeliverKeepsHeard(w, n, packet, h);
    }
    NodeStepKeeps(w, w', n);
  }

  lemma {:induction false} StepKeeps(w: World, step: Step)
    requires Inv(w) && Enabled(w, step)
    ensures Inv(Apply(w, step))
  {
    hide Inv, Enabled, Apply;
    match step
    case Start(n, peers, t) => StartKeeps(w, n, peers, t);
    case Advance(n, t) => AdvanceKeeps(w, n, t);
    case Tick(n) => TickKeeps(w, n);
    case Send(n, packet) => SendKeeps(w, n, packet);
    case Deliver(n, packet) => DeliverKeeps(w, n, packet);
  }

  lemma {:induction false} RunKeeps(w: World, run: seq<Step>)
    requires Inv(w) && Exec(w, run).Some?
    ensures Inv(Exec(w, run).value)
  {
    hide Inv, Enabled, Apply;
    if run != [] {
      RunKeeps(w, run[..|run| - 1]);
      StepKeeps(Exec(w, run[..|run| - 1]).value, run[|run| - 1]);
    }
  }

  // ----- theorems -----------------------------------------------------------------------------

  /** Nobody, in any view or any packet ever sent, is credited with a higher incarnation than
      it gave itself: incarnations are only made up by their owner. */
  lemma {:induction false} NoForgedIncarnations(run: seq<Step>)
    requires Exec(EMPTY, run).Some?
    ensures var w := Exec(EMPTY, run).value;
      && (forall n <- w.nodes.Keys :: ViewBelow(w, w.nodes[n].view))
      && (forall p <- w.packets :: PacketBelow(w, p))
  {
    RunKeeps(EMPTY, run);
    var w := Exec(EMPTY, run).value;
    forall n | n in w.nodes ensures ViewBelow(w, w.nodes[n].view) { assert NodeOk(w, n); }
  }

  /** In every view nothing is forgotten and no incarnation drops. */
  ghost predicate Monotone(w: World, w': World) {
    forall n <- w.nodes.Keys :: n in w'.nodes && ViewMonotone(w.nodes[n].view, w'.nodes[n].view)
  }

  /** A step raises at most one node's own incarnation, by exactly one, and only to refute an
      accusation made at that node's current incarnation. */
  lemma {:induction false} StepMonotone(w: World, step: Step)
    requires Inv(w) && Enabled(w, step)
    ensures Monotone(w, Apply(w, step))
    ensures forall n <- w.nodes.Keys :: Own(Apply(w, step), n) <= Own(w, n) + 1
    ensures forall n <- w.nodes.Keys :: Own(Apply(w, step), n) > Own(w, n) ==>
      && step.Deliver? && step.n == n
      && exists r <- step.packet :: r.addr == n && r.status != Alive && r.incarnation == Own(w, n)
  {
    hide Merged, HeardInPacket, HeardAtStart, IsSnapshot, Monotone;
    if step.n in w.nodes {
      assert NodeOk(w, step.n);
      if step.Deliver? { DeliveryRaises(w, step.n, step.packet); }
    }
    ChangedNodeMonotone(w, step);
  }

  lemma {:induction false} DeliveryRaises(w: World, n: Addr, packet: seq<Report>)
    requires n in w.nodes && NodeOk(w, n) && PacketBelow(w, packet)
    ensures var i := Merged(w.nodes[n].view, packet, w.nodes[n].clock).incarnation;
      && Own(w, n) <= i <= Own(w, n) + 1
      && (i > Own(w, n) ==> exists r <- packet :: r.addr == n && r.status != Alive && r.incarnation == Own(w, n))
  {
    hide Merged;
    RefutationRaisesByOne(w.nodes[n].view, packet, w.nodes[n].clock);
  }

  ghost predicate ViewMonotone(v: View, v': View) {
    && v.incarnation <= v'.incarnation
    && forall a <- v.members.Keys :: a in v'.members && v.members[a].incarnation <= v'.members[a].incarnation
  }

  lemma {:induction false} MergeMonotone(v: View, rs: seq<Report>, now: int)
    requires forall r <- rs :: r.addr == v.self ==> r.incarnation <= v.incarnation
    ensures ViewMonotone(v, Merged(v, rs, now))
  {
    hide Merged;
    RefutationRaisesByOne(v, rs, now);
    forall a | a in v.members
      ensures a in Merged(v, rs, now).members && v.members[a].incarnation <= Merged(v, rs, now).members[a].incarnation
    {
      MergeNeverAccuses(v, rs, now, a);
    }
  }

  lemma {:induction false} ChangedNodeMonotone(w: World, step: Step)
    requires Inv(w) && Enabled(w, step)
    ensures Monotone(w, Apply(w, step))
  {
    hide Merged, HeardInPacket, HeardAtStart, IsSnapshot, Ticked, ViewMonotone, Started;
    var w', n := Apply(w, step), step.n;
    forall m | m in w.nodes ensures m in w'.nodes && ViewMonotone(w.nodes[m].view, w'.nodes[m].view) {
      SameMonotone(w.nodes[m].view);
      if m == n {
        assert NodeOk(w, n);
        match step
        case Deliver(_, packet) =>
          assert PacketBelow(w, packet);
          MergeMonotone(w.nodes[n].view, packet, w.nodes[n].clock);
        case Tick(_) => TickMonotone(w, n);
        case _ =>
      }
    }
  }

  lemma {:induction false} SameMonotone(v: View)
    ensures ViewMonotone(v, v)
  {}

  lemma {:induction false} TickMonotone(w: World, n: Addr)
    requires n in w.nodes && NodeOk(w, n)
    ensures ViewMonotone(w.nodes[n].view, Ticked(w.nodes[n].view, w.nodes[n].clock))
  {}

  lemma {:induction false} RunMonotone(w: World, run: seq<Step>)
    requires Inv(w) && Exec(w, run).Some?
    ensures Monotone(w, Exec(w, run).value)
  {
    hide Inv, Enabled, Apply;
    if run != [] {
      var before := Exec(w, run[..|run| - 1]).value;
      RunMonotone(w, run[..|run| - 1]);
      RunKeeps(w, run[..|run| - 1]);
      StepMonotone(before, run[|run| - 1]);
      MonotoneTransitive(w, before, Exec(w, run).value);
    }
  }

  lemma {:induction false} MonotoneTransitive(a: World, b: World, c: World)
    requires Monotone(a, b) && Monotone(b, c)
    ensures Monotone(a, c)
  {}

  /** Hearsay never accuses: a member's status at a node gets worse only by that node's own
      tick, and it is declared dead only after 20 seconds, on that node's clock, without being
      added and without a single alive report of it being merged. */
  lemma {:induction false} DeadOnlyAfterSilence(run: seq<Step>, step: Step, n: Addr, a: Addr)
    requires Exec(EMPTY, run).Some? && Enabled(Exec(EMPTY, run).value, step)
    requires var w := Exec(EMPTY, run).value; n in w.nodes && a in w.nodes[n].view.members && a != n
    ensures var w := Exec(EMPTY, run).value; var w' := Apply(w, step);
      && n in w'.nodes && a in w'.nodes[n].view.members
      && var before, after := w.nodes[n].view.members[a].status, w'.nodes[n].view.members[a].status;
        && (after != Alive && after != before ==> step == Tick(n))
        && (exists h <- w.heard :: h.node == n && h.about == a)
        && (after == Dead && before != Dead ==>
              forall h <- w.heard :: h.node == n && h.about == a ==> w.nodes[n].clock - h.at >= DEAD_AFTER)
  {
    hide Exec, Merged, HeardInPacket, HeardAtStart, IsSnapshot;
    var w := Exec(EMPTY, run).value;
    RunKeeps(EMPTY, run);
    assert NodeOk(w, n);
    if step.Deliver? && step.n == n {
      MergeNeverAccuses(w.nodes[n].view, step.packet, w.nodes[n].clock, a);
    }
    forall h | h in w.heard && h.node == n && h.about == a
      ensures h.at <= w.nodes[n].view.members[a].heartbeat { assert HeardOk(w, h); }
  }

  /** Refutation works: a live node that receives the view of whoever holds it for dead, ticks
      and answers with its own view is alive there again. */
  lemma {:induction false} RefutationRevives(accuser: View, x: View, p: seq<Report>, t1: int, t2: int, p': seq<Report>, t3: int)
    requires x.self in x.members && x.self != accuser.self
    requires x.self in accuser.members && accuser.members[x.self].status != Alive
    requires accuser.members[x.self].incarnation <= x.incarnation
    requires IsSnapshot(accuser, p) && IsSnapshot(Ticked(Merged(x, p, t1), t2), p')
    ensures var v := Merged(accuser, p', t3); x.self in v.members && v.members[x.self].status == Alive
  {
    hide Merged;
    var i := accuser.members[x.self].incarnation;
    var accusation := Report(x.self, i, accuser.members[x.self].status);
    assert accusation in p;
    MergedSelf(x, p, t1);
    assert forall r <- p :: r.addr == x.self ==> r.incarnation == i;
    RefutationRaisesByOne(x, p, t1);
    var x' := Ticked(Merged(x, p, t1), t2);
    assert x'.members[x.self].incarnation > i;
    var answer := Report(x.self, x'.members[x.self].incarnation, x'.members[x.self].status);
    assert answer in p';
    HigherIncarnationRevives(accuser, p', t3, answer);
  }

  lemma {:induction false} HigherIncarnationRevives(v: View, rs: seq<Report>, now: int, r: Report)
    requires r in rs && r.addr != v.self && r.addr in v.members && r.incarnation > v.members[r.addr].incarnation
    ensures r.addr in Merged(v, rs, now).members && Merged(v, rs, now).members[r.addr].status == Alive
  {
    var n := |rs| - 1;
    var v' := Merged(v, rs[..n], now);
    MergeKeepsSelf(v, rs[..n], now);
    MergeNeverAccuses(v, rs[..n], now, r.addr);
    if r in rs[..n] {
      HigherIncarnationRevives(v, rs[..n], now, r);
    } else {
      assert r == rs[n];
      RaisedMeansAlive(v, rs[..n], now, r.addr);
    }
  }

  /** Whenever a merge raised a member's incarnation, the member is alive. */
  lemma {:induction false} RaisedMeansAlive(v: View, rs: seq<Report>, now: int, a: Addr)
    requires a != v.self && a in v.members
    ensures var v' := Merged(v, rs, now);
      a in v'.members && (v'.members[a].incarnation > v.members[a].incarnation ==> v'.members[a].status == Alive)
  {
    if rs != [] {
      RaisedMeansAlive(v, rs[..|rs| - 1], now, a);
      MergeNeverAccuses(v, rs[..|rs| - 1], now, a);
      MergeKeepsSelf(v, rs[..|rs| - 1], now);
    }
  }
}
