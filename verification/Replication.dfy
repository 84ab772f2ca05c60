/**
 Where a broker replicates a partition (broker/broker.go): the first peers on the key's
 clockwise walk other than itself.
 */
module Replication {
  import opened Addresses
  import opened HashRing

  const REPLICATION_FACTOR: nat := 2

  /** replicaTargets' loop over the owners it asked the ring for. */
  method ReplicaTargets(owners: seq<Addr>, self: Addr) returns (targets: seq<Addr>)
    ensures targets == Take(Erase(owners, self), REPLICATION_FACTOR - 1)
  {
    targets := [];
    var i := 0;
    hide Erase;
    EraseNothing(self);
    assert owners[..0] == [];
    while i < |owners|
      invariant 0 <= i <= |owners| && targets == Erase(owners[..i], self) && |targets| < REPLICATION_FACTOR - 1
    {
      var o := owners[i];
      assert owners[..i + 1] == owners[..i] + [o];
      EraseSnoc(owners[..i], o, self);
      i := i + 1;
      if o == self { continue; }
      targets := targets + [o];
      if |targets| >= REPLICATION_FACTOR - 1 {
        ErasePrefix(owners, i, self);
        return;
      }
    }
    assert owners[..i] == owners;
  }

  lemma {:induction false} EraseNothing(x: Addr)
    ensures Erase([], x) == []
  {}

  lemma {:induction false} ErasePrefix(s: seq<Addr>, i: nat, x: Addr)
    requires i <= |s|
    ensures Erase(s[..i], x) <= Erase(s, x)
  {
    if i == |s| {
      assert s[..i] == s;
    } else {
      var n := |s| - 1;
      ErasePrefix(s[..n], i, x);
      assert s[..n][..i] == s[..i];
    }
  }

  lemma {:induction false} EraseOnce(s: seq<Addr>, x: Addr)
    requires forall i, j :: 0 <= i < j < |s| ==> s[i] != s[j]
    ensures |Erase(s, x)| >= |s| - 1
  {
    if s != [] {
      var n := |s| - 1;
      if s[n] == x { EraseLength(s[..n], x); } else { EraseOnce(s[..n], x); }
    }
  }

  /** Asking the ring for two owners more than there are targets always suffices: the targets
      are the first peers of the full walk. */
  lemma {:induction false} TargetsAreNearestPeers(owners: seq<Addr>, self: Addr)
    requires forall i, j :: 0 <= i < j < |owners| ==> owners[i] != owners[j]
    ensures Take(Erase(Take(owners, REPLICATION_FACTOR + 1), self), REPLICATION_FACTOR - 1)
         == Take(Erase(owners, self), REPLICATION_FACTOR - 1)
  {
    hide Erase;
    var m := REPLICATION_FACTOR + 1;
    if m < |owners| {
      ErasePrefix(owners, m, self);
      EraseOnce(owners[..m], self);
    }
  }

  lemma {:induction false} EraseCommutes(s: seq<Addr>, x: Addr, y: Addr)
    ensures Erase(Erase(s, x), y) == Erase(Erase(s, y), x)
  {
    if s != [] {
      hide Erase;
      var n := |s| - 1;
      var init, a := s[..n], s[n];
      assert s == init + [a];
      EraseCommutes(init, x, y);
      EraseSnoc(init, a, x);
      EraseSnoc(init, a, y);
      EraseSnoc(Erase(init, x), a, y);
      EraseSnoc(Erase(init, y), a, x);
    }
  }

  /** When peer `x` dies and leaves the ring, a partition's other targets stay its targets. */
  lemma {:induction false} FailoverKeepsTargets(owners: seq<Addr>, self: Addr, x: Addr, t: Addr)
    requires t in Take(Erase(owners, self), REPLICATION_FACTOR - 1) && t != x
    ensures t in Take(Erase(Erase(owners, x), self), REPLICATION_FACTOR - 1)
  {
    EraseCommutes(owners, x, self);
    var peers := Erase(owners, self);
    var i :| 0 <= i < |Take(peers, REPLICATION_FACTOR - 1)| && Take(peers, REPLICATION_FACTOR - 1)[i] == t;
    SurvivorsKept(peers, x, REPLICATION_FACTOR - 1, i);
  }
}
