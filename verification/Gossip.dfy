/**
 A gossip node (gossip/gossip.go): its view of the membership, aged by `tick` and refreshed by
 `merge`. Times are nanoseconds on the node's own clock.
 */
module Gossip {
  import opened Addresses

  const SECOND := 1_000_000_000
  const SUSPECT_AFTER := 10 * SECOND
  const DEAD_AFTER := 20 * SECOND

  datatype Status = Alive | Suspected | Dead

  /** A member's state; its address is its key in the view. */
  datatype Member = Member(heartbeat: int, incarnation: nat, status: Status)

  /** A member's state as another node reports it; the reported heartbeat is never used. */
  datatype Report = Report(addr: Addr, incarnation: nat, status: Status)

  datatype View = View(self: Addr, incarnation: nat, members: map<Addr, Member>)

  // ----- specification ------------------------------------------------------------------

  function Started(self: Addr, peers: seq<Addr>, now: int): View {
    View(self, 0, map a | a in peers + [self] && (a == self || a != "") :: Member(now, 0, Alive))
  }

  /** What a tick makes of another member. */
  function Aged(m: Member, now: int): Member {
    var age := now - m.heartbeat;
    if age >= DEAD_AFTER && m.status != Dead then m.(status := Dead)
    else if SUSPECT_AFTER <= age < DEAD_AFTER && m.status == Alive then m.(status := Suspected)
    else m
  }

  function Ticked(v: View, now: int): View {
    v.(members := map a | a in v.members ::
      if a == v.self then v.members[a].(heartbeat := now, incarnation := v.incarnation) else Aged(v.members[a], now))
  }

  function NewlyDead(v: View, now: int): set<Addr> {
    set a | a in v.members && a != v.self && now - v.members[a].heartbeat >= DEAD_AFTER && v.members[a].status != Dead
  }

  /** What a report about an already known member does. */
  function Refreshed(m: Member, r: Report, now: int): Member {
    if r.incarnation > m.incarnation then Member(now, r.incarnation, Alive)
    else if r.incarnation == m.incarnation && r.status == Alive && m.status != Alive then Member(now, m.incarnation, Alive)
    else if r.status == Alive then Member(now, m.incarnation, if m.status == Suspected then Alive else m.status)
    else m
  }

  function MergedOne(v: View, r: Report, now: int): View {
    if r.addr == v.self then
      if r.status != Alive && r.incarnation >= v.incarnation then v.(incarnation := r.incarnation + 1) else v
    else if r.addr !in v.members then v.(members := v.members[r.addr := Member(now, r.incarnation, Alive)])
    else v.(members := v.members[r.addr := Refreshed(v.members[r.addr], r, now)])
  }

  function Merged(v: View, rs: seq<Report>, now: int): View {
    if rs == [] then v else MergedOne(Merged(v, rs[..|rs| - 1], now), rs[|rs| - 1], now)
  }

  // ----- what ticks and merges do ---------------------------------------------------------

  /** Right after a tick every status agrees with the silence so far: nobody silent for 20 s is
      anything but dead, nobody silent for 10 s is alive; and exactly those newly dead were not
      dead before. */
  lemma {:induction false} TickClassifies(v: View, now: int, a: Addr)
    requires v.self in v.members && a in v.members && a != v.self
    ensures var m, m' := v.members[a], Ticked(v, now).members[a];
      && m'.heartbeat == m.heartbeat && m'.incarnation == m.incarnation
      && (now - m.heartbeat >= DEAD_AFTER ==> m'.status == Dead)
      && (now - m.heartbeat >= SUSPECT_AFTER ==> m'.status != Alive)
      && (now - m.heartbeat < SUSPECT_AFTER ==> m'.status == m.status)
      && (a in NewlyDead(v, now) <==> m.status != Dead && m'.status == Dead)
      && (m.status == Dead ==> m'.status == Dead)
  {}

  lemma {:induction false} MergeKeepsSelf(v: View, rs: seq<Report>, now: int)
    ensures Merged(v, rs, now).self == v.self
  {
    if rs != [] { MergeKeepsSelf(v, rs[..|rs| - 1], now); }
  }

  /** Whom a node takes to be alive. */
  predicate Believes(v: View, a: Addr) {
    a == v.self || (a in v.members && v.members[a].status == Alive)
  }

  /** A fresh node believes in itself and in the peers it was given. */
  lemma {:induction false} StartBelieves(self: Addr, peers: seq<Addr>, now: int, a: Addr)
    ensures Believes(Started(self, peers, now), a) <==> a == self || (a in peers && a != "")
  {}

  /** Right after a tick, a node believes exactly in itself and in the members it believed in
      before and heard of within the last 10 s. */
  lemma {:induction false} TickBelieves(v: View, now: int, a: Addr)
    requires a != v.self
    ensures Believes(Ticked(v, now), a) <==> Believes(v, a) && now - v.members[a].heartbeat < SUSPECT_AFTER
  {}

  /** A merge takes away no belief, and adds those of reports that are news: of a member not
      known yet, of a higher incarnation, or alive about one that is not older and not lost. */
  lemma {:induction false} MergeBelieves(v: View, r: Report, now: int, a: Addr)
    ensures Believes(MergedOne(v, r, now), a) <==>
      Believes(v, a) || (r.addr == a && IsNews(v, r))
  {}

  predicate IsNews(v: View, r: Report) {
    || r.addr !in v.members
    || r.incarnation > v.members[r.addr].incarnation
    || (r.status == Alive && (r.incarnation == v.members[r.addr].incarnation || v.members[r.addr].status == Suspected))
  }

  /** A merge never makes a member suspected or dead, never forgets one and never lowers an
      incarnation; a new member is alive. */
  lemma {:induction false} MergeNeverAccuses(v: View, rs: seq<Report>, now: int, a: Addr)
    ensures var v' := Merged(v, rs, now);
      && (a in v.members ==> a in v'.members && v.members[a].incarnation <= v'.members[a].incarnation
                             && (v'.members[a].status == Alive || v'.members[a].status == v.members[a].status))
      && (a !in v.members && a in v'.members ==> v'.members[a].status == Alive)
  {
    if rs != [] { MergeNeverAccuses(v, rs[..|rs| - 1], now, a); }
  }

  predicate Revives(r: Report, a: Addr, incarnation: nat) {
    r.addr == a && (r.incarnation > incarnation || (r.incarnation == incarnation && r.status == Alive))
  }

  /** A dead member comes back exactly when some report carries a higher incarnation, or an
      alive status at its incarnation: old alive reports alone do not revive it. */
  lemma {:induction false} StaleReportsDoNotRevive(v: View, rs: seq<Report>, now: int, a: Addr)
    requires a in v.members && a != v.self && v.members[a].status == Dead
    ensures var v' := Merged(v, rs, now);
      && a in v'.members
      && (v'.members[a].status == Alive <==> exists r <- rs :: Revives(r, a, v.members[a].incarnation))
      && (v'.members[a].status == Dead ==> v'.members[a].incarnation == v.members[a].incarnation)
  {
    MergeNeverAccuses(v, rs, now, a);
    if rs != [] {
      MergeNeverAccuses(v, rs[..|rs| - 1], now, a);
      var n := |rs| - 1;
      StaleReportsDoNotRevive(v, rs[..n], now, a);
      MergeKeepsSelf(v, rs[..n], now);
      RevivedBySnoc(rs, a, v.members[a].incarnation);
    }
  }

  lemma {:induction false} RevivedBySnoc(rs: seq<Report>, a: Addr, incarnation: nat)
    requires rs != []
    ensures (exists r <- rs :: Revives(r, a, incarnation)) <==>
            (exists r <- rs[..|rs| - 1] :: Revives(r, a, incarnation)) || Revives(rs[|rs| - 1], a, incarnation)
  {
    hide Revives;
    assert forall r :: r in rs <==> r in rs[..|rs| - 1] || r == rs[|rs| - 1];
  }

  // ----- a merge in closed form ---------------------------------------------------------------

  /** An alive report of `a`, or one of a higher incarnation. */
  predicate Renews(r: Report, a: Addr, incarnation: nat) {
    r.addr == a && (r.status == Alive || r.incarnation > incarnation)
  }

  ghost predicate Mentioned(rs: seq<Report>, a: Addr) {
    exists r <- rs :: r.addr == a
  }

  ghost predicate Renewed(rs: seq<Report>, a: Addr, incarnation: nat) {
    exists r <- rs :: Renews(r, a, incarnation)
  }

  lemma {:induction false} MentionedSnoc(rs: seq<Report>, a: Addr, incarnation: nat)
    requires rs != []
    ensures Mentioned(rs, a) <==> Mentioned(rs[..|rs| - 1], a) || rs[|rs| - 1].addr == a
    ensures Renewed(rs, a, incarnation) <==> Renewed(rs[..|rs| - 1], a, incarnation) || Renews(rs[|rs| - 1], a, incarnation)
  {
    hide Renews;
    assert forall r :: r in rs <==> r in rs[..|rs| - 1] || r == rs[|rs| - 1];
  }

  /** Merging knows exactly the members known before and those reported about. */
  lemma {:induction false} MergedKnows(v: View, rs: seq<Report>, now: int, a: Addr)
    requires a != v.self
    ensures a in Merged(v, rs, now).members <==> a in v.members || Mentioned(rs, a)
  {
    if rs != [] {
      MentionedSnoc(rs, a, 0);
      hide Mentioned;
      MergedKnows(v, rs[..|rs| - 1], now, a);
      MergeKeepsSelf(v, rs[..|rs| - 1], now);
    }
  }

  /** `i` is the highest of an old incarnation, if there is one, and of all reported ones. */
  ghost predicate Highest(v: View, rs: seq<Report>, a: Addr, i: nat) {
    && (a in v.members ==> v.members[a].incarnation <= i)
    && (forall r <- rs :: r.addr == a ==> r.incarnation <= i)
    && ((a in v.members && v.members[a].incarnation == i) || exists r <- rs :: r.addr == a && r.incarnation == i)
  }

  /** The incarnation a merge stores for a member is the maximum of the old one and of all reports
      about it, for new members included. */
  lemma {:induction false} MergedIncarnation(v: View, rs: seq<Report>, now: int, a: Addr)
    requires a != v.self && a in Merged(v, rs, now).members
    ensures Highest(v, rs, a, Merged(v, rs, now).members[a].incarnation)
  {
    if rs != [] {
      var n := |rs| - 1;
      var v1 := Merged(v, rs[..n], now);
      MergeKeepsSelf(v, rs[..n], now);
      MergedKnows(v, rs[..n], now, a);
      assert forall r :: r in rs <==> r in rs[..n] || r == rs[n];
      if a in v1.members {
        MergedIncarnation(v, rs[..n], now, a);
      } else {
        assert forall r <- rs[..n] :: r.addr != a;
      }
    }
  }

  /** A known member's heartbeat is renewed exactly by an alive report or a higher incarnation. */
  lemma {:induction false} MergedHeartbeat(v: View, rs: seq<Report>, now: int, a: Addr)
    requires a != v.self && a in v.members
    ensures a in Merged(v, rs, now).members
    ensures Merged(v, rs, now).members[a].heartbeat ==
      if Renewed(rs, a, v.members[a].incarnation) then now else v.members[a].heartbeat
  {
    MergedKnows(v, rs, now, a);
    if rs != [] {
      MentionedSnoc(rs, a, v.members[a].incarnation);
      var n := |rs| - 1;
      MergeKeepsSelf(v, rs[..n], now);
      MergedHeartbeat(v, rs[..n], now, a);
      MergedIncarnation(v, rs[..n], now, a);
      var raised := Merged(v, rs[..n], now).members[a].incarnation > v.members[a].incarnation;
      if raised {
        var r :| r in rs[..n] && r.addr == a && r.incarnation > v.members[a].incarnation;
        assert Renews(r, a, v.members[a].incarnation);
        assert Renewed(rs[..n], a, v.members[a].incarnation);
      }
    }
  }

  /** A suspected member is cleared exactly by an alive report or a higher incarnation, an alive
      one stays alive; for a dead one see `StaleReportsDoNotRevive`. */
  lemma {:induction false} MergedSuspicion(v: View, rs: seq<Report>, now: int, a: Addr)
    requires a != v.self && a in v.members && v.members[a].status != Dead
    ensures a in Merged(v, rs, now).members
    ensures Merged(v, rs, now).members[a].status ==
      if Renewed(rs, a, v.members[a].incarnation) then Alive else v.members[a].status
  {
    MergedKnows(v, rs, now, a);
    MergeNeverAccuses(v, rs, now, a);
    if rs != [] {
      MentionedSnoc(rs, a, v.members[a].incarnation);
      var n := |rs| - 1;
      MergeKeepsSelf(v, rs[..n], now);
      MergedSuspicion(v, rs[..n], now, a);
      MergedIncarnation(v, rs[..n], now, a);
      var raised := Merged(v, rs[..n], now).members[a].incarnation > v.members[a].incarnation;
      if raised {
        var r :| r in rs[..n] && r.addr == a && r.incarnation > v.members[a].incarnation;
        assert Renews(r, a, v.members[a].incarnation);
        assert Renewed(rs[..n], a, v.members[a].incarnation);
      }
    }
  }

  /** A member reported about for the first time is alive and just heard of. */
  lemma {:induction false} MergedNewcomer(v: View, rs: seq<Report>, now: int, a: Addr)
    requires a != v.self && a !in v.members && a in Merged(v, rs, now).members
    ensures var m := Merged(v, rs, now).members[a]; m.status == Alive && m.heartbeat == now
  {
    MergeNeverAccuses(v, rs, now, a);
    if rs != [] {
      var n := |rs| - 1;
      MergeKeepsSelf(v, rs[..n], now);
      MergeNeverAccuses(v, rs[..n], now, a);
      if a in Merged(v, rs[..n], now).members { MergedNewcomer(v, rs[..n], now, a); }
    }
  }

  /** Old news revives nobody: in any later view that has not forgotten what was merged, a dead
      member stays dead under a report at or below the highest incarnation merged about it,
      unless that report is alive at the stored incarnation. */
  lemma {:induction false} OldNewsDoesNotRevive(v0: View, rs: seq<Report>, t0: int, earlier: Report, v: View, r: Report, t: int)
    requires earlier in rs && earlier.addr == r.addr && r.addr != v0.self && r.incarnation <= earlier.incarnation
    requires r.addr in Merged(v0, rs, t0).members && r.addr in v.members && r.addr != v.self
    requires v.members[r.addr].incarnation >= Merged(v0, rs, t0).members[r.addr].incarnation
    requires v.members[r.addr].status == Dead && !(r.status == Alive && r.incarnation == v.members[r.addr].incarnation)
    ensures var v' := MergedOne(v, r, t);
      r.addr in v'.members && v'.members[r.addr].status == Dead && v'.members[r.addr].incarnation == v.members[r.addr].incarnation
  {
    MergedIncarnation(v0, rs, t0, r.addr);
  }

  /** Each refutation raises the incarnation by exactly one, as long as nobody reports a higher
      one than the node's own; it happens exactly when a report accuses the node at its current
      incarnation. */
  lemma {:induction false} RefutationRaisesByOne(v: View, rs: seq<Report>, now: int)
    requires forall r <- rs :: r.addr == v.self ==> r.incarnation <= v.incarnation
    ensures Merged(v, rs, now).incarnation ==
      if exists r <- rs :: r.addr == v.self && r.status != Alive && r.incarnation == v.incarnation
      then v.incarnation + 1 else v.incarnation
  {
    if rs != [] {
      var n := |rs| - 1;
      RefutationRaisesByOne(v, rs[..n], now);
      MergeKeepsSelf(v, rs[..n], now);
      assert forall r :: r in rs <==> r in rs[..n] || r == rs[n];
    }
  }

  // ----- the node ----------------------------------------------------------------------------

  class GossipNode {
    const self: Addr
    var incarnation: nat
    var members: map<Addr, Member>

    ghost predicate Valid()
      reads this
    {
      self in members
    }

    function Now(): View
      reads this
    {
      View(self, incarnation, members)
    }

    constructor (self: Addr, peers: seq<Addr>, now: int)
      ensures Valid() && Now() == Started(self, peers, now)
    {
      this.self := self;
      incarnation := 0;
      var ms := AddPeers(self, peers, now);
      members := ms;
    }

    /** tick: refresh the own entry, age the others, return who was newly declared dead. */
    method Tick(now: int) returns (newlyDead: set<Addr>)
      requires Valid()
      modifies this
      ensures Valid() && Now() == Ticked(old(Now()), now) && newlyDead == NewlyDead(old(Now()), now)
    {
      var ms;
      members := members[self := members[self].(heartbeat := now, incarnation := incarnation)];
      ms, newlyDead := AgeAll(members, self, now);
      members := ms;
    }

    /** merge: fold the reports of a packet into the view, in their order. */
    method Merge(incoming: seq<Report>, now: int)
      requires Valid()
      modifies this
      ensures Valid() && Now() == Merged(old(Now()), incoming, now)
    {
      hide MergedOne;
      var i := 0;
      ghost var v := Now();
      while i < |incoming|
        invariant 0 <= i <= |incoming| && Valid() && Now() == Merged(v, incoming[..i], now)
      {
        assert incoming[..i + 1][..i] == incoming[..i];
        MergeReport(incoming[i], now);
        i := i + 1;
      }
      assert incoming[..i] == incoming;
    }

    method MergeReport(r: Report, now: int)
      requires Valid()
      modifies this
      ensures Valid() && Now() == MergedOne(old(Now()), r, now)
    {
      if r.addr == self {
        if r.status != Alive && r.incarnation >= incarnation { incarnation := r.incarnation + 1; }
        return;
      }
      if r.addr !in members {
        members := members[r.addr := Member(now, r.incarnation, Alive)];
        return;
      }
      var cur := members[r.addr];
      if r.incarnation > cur.incarnation {
        cur := Member(now, r.incarnation, Alive);
      } else if r.incarnation == cur.incarnation && r.status == Alive && cur.status != Alive {
        cur := cur.(heartbeat := now, status := Alive);
      } else if r.status == Alive {
        cur := cur.(heartbeat := now);
        if cur.status == Suspected { cur := cur.(status := Alive); }
      }
      members := members[r.addr := cur];
    }

    /** IsAlive: unknown members are not alive, the node itself always is. */
    method IsAlive(addr: Addr) returns (alive: bool)
      ensures alive <==> Believes(Now(), addr)
    {
      if addr == self { return true; }
      return addr in members && members[addr].status == Alive;
    }
  }

  method AddPeers(self: Addr, peers: seq<Addr>, now: int) returns (ms: map<Addr, Member>)
    ensures ms == Started(self, peers, now).members
  {
    ms := map[self := Member(now, 0, Alive)];
    for i := 0 to |peers|
      invariant ms == Started(self, peers[..i], now).members
    {
      assert peers[..i + 1] == peers[..i] + [peers[i]];
      if peers[i] != "" && peers[i] != self { ms := ms[peers[i] := Member(now, 0, Alive)]; }
    }
    assert peers[..|peers|] == peers;
  }

  /** The members of a tick whose loop has yet to visit `left`. */
  function AgedBut(members: map<Addr, Member>, self: Addr, now: int, left: set<Addr>): map<Addr, Member> {
    map a | a in members :: if a == self || a in left then members[a] else Aged(members[a], now)
  }

  function DeadBut(members: map<Addr, Member>, self: Addr, now: int, left: set<Addr>): set<Addr> {
    NewlyDead(View(self, 0, members), now) - left
  }

  lemma {:induction false} NoneAged(members: map<Addr, Member>, self: Addr, now: int)
    ensures AgedBut(members, self, now, members.Keys - {self}) == members
    ensures DeadBut(members, self, now, members.Keys - {self}) == {}
    ensures DeadBut(members, self, now, {}) == NewlyDead(View(self, 0, members), now)
  {}

  lemma {:induction false} AgedStep(members: map<Addr, Member>, self: Addr, now: int, left: set<Addr>, a: Addr)
    requires a in left && a in members && a != self
    ensures a in AgedBut(members, self, now, left) && AgedBut(members, self, now, left)[a] == members[a]
    ensures AgedBut(members, self, now, left - {a}) == AgedBut(members, self, now, left)[a := Aged(members[a], now)]
  {
    hide Aged;
  }

  lemma {:induction false} DeadStep(members: map<Addr, Member>, self: Addr, now: int, left: set<Addr>, a: Addr)
    requires a in left && a in members && a != self
    ensures var died := now - members[a].heartbeat >= DEAD_AFTER && members[a].status != Dead;
      DeadBut(members, self, now, left - {a}) ==
      if died then DeadBut(members, self, now, left) + {a} else DeadBut(members, self, now, left)
  {
    assert a in NewlyDead(View(self, 0, members), now) <==>
           now - members[a].heartbeat >= DEAD_AFTER && members[a].status != Dead;
    hide NewlyDead;
  }

  /** tick's loop over the members, in any order. */
  method AgeAll(members: map<Addr, Member>, self: Addr, now: int) returns (ms: map<Addr, Member>, newlyDead: set<Addr>)
    ensures ms == AgedBut(members, self, now, {})
    ensures newlyDead == NewlyDead(View(self, 0, members), now)
  {
    hide AgedBut, DeadBut, NewlyDead, Aged;
    NoneAged(members, self, now);
    ms, newlyDead := members, {};
    var left := members.Keys - {self};
    while left != {}
      invariant left <= members.Keys - {self}
      invariant ms == AgedBut(members, self, now, left) && newlyDead == DeadBut(members, self, now, left)
      decreases |left|
    {
      var a :| a in left;
      AgedStep(members, self, now, left, a);
      DeadStep(members, self, now, left, a);
      left := left - {a};
      var m, died := AgeOne(ms[a], now);
      if died { newlyDead := newlyDead + {a}; }
      ms := ms[a := m];
    }
  }

  /** One iteration: the switch on the member's age. */
  method AgeOne(m: Member, now: int) returns (m': Member, died: bool)
    ensures m' == Aged(m, now) && (died <==> now - m.heartbeat >= DEAD_AFTER && m.status != Dead)
  {
    var age := now - m.heartbeat;
    m', died := m, false;
    if age >= DEAD_AFTER && m.status != Dead {
      m', died := m.(status := Dead), true;
    } else if age >= SUSPECT_AFTER && age < DEAD_AFTER && m.status == Alive {
      m' := m.(status := Suspected);
    }
  }
}
