/**
 The consistent-hash ring (hasher/hashring.go). Hashes are any function into 32 bits, so
 virtual nodes of different physical nodes may collide; a colliding slot stays with the node
 that took it first.
 */
module HashRing {
  import opened Addresses

  /** crc32 of a key, and of "addr#i" for the i-th virtual node. */
  datatype Hashing = Hashing(ofKey: string -> nat, ofVirtual: (Addr, nat) -> nat)

  ghost predicate Increasing(ring: seq<nat>) {
    forall i, j :: 0 <= i < j < |ring| ==> ring[i] < ring[j]
  }

  // ----- the clockwise walk ---------------------------------------------------------

  function AtOrAfter(ring: seq<nat>, h: nat): seq<nat> {
    if ring == [] then [] else if ring[0] >= h then [ring[0]] + AtOrAfter(ring[1..], h) else AtOrAfter(ring[1..], h)
  }

  function Before(ring: seq<nat>, h: nat): seq<nat> {
    if ring == [] then [] else if ring[0] < h then [ring[0]] + Before(ring[1..], h) else Before(ring[1..], h)
  }

  /** Ring positions in the order a walk from hash `h` meets them. */
  function Clockwise(ring: seq<nat>, h: nat): seq<nat> {
    AtOrAfter(ring, h) + Before(ring, h)
  }

  /** The first occurrence of every node, in order. */
  function Dedup(walk: seq<Addr>): seq<Addr> {
    if walk == [] then []
    else
      var rest := Dedup(walk[..|walk| - 1]);
      if walk[|walk| - 1] in rest then rest else rest + [walk[|walk| - 1]]
  }

  function Erase(s: seq<Addr>, x: Addr): seq<Addr> {
    if s == [] then []
    else if s[|s| - 1] == x then Erase(s[..|s| - 1], x) else Erase(s[..|s| - 1], x) + [s[|s| - 1]]
  }

  function Names(hs: seq<nat>, owner: map<nat, Addr>): seq<Addr>
    requires forall h <- hs :: h in owner
  {
    if hs == [] then [] else Names(hs[..|hs| - 1], owner) + [owner[hs[|hs| - 1]]]
  }

  /** All owners of a key hash, nearest first: the specification of GetNodes. */
  function Owners(ring: seq<nat>, owner: map<nat, Addr>, h: nat): seq<Addr>
    requires forall x <- ring :: x in owner
  {
    ClockwiseMembers(ring, h);
    Dedup(Names(Clockwise(ring, h), owner))
  }

  lemma {:induction false} ClockwiseMembers(ring: seq<nat>, h: nat)
    ensures forall x :: x in Clockwise(ring, h) <==> x in ring
  {
    if ring != [] {
      ClockwiseMembers(ring[1..], h);
      assert forall x :: x in ring <==> x == ring[0] || x in ring[1..];
      assert forall x :: x in Clockwise(ring, h) <==> x == ring[0] || x in Clockwise(ring[1..], h);
    }
  }

  // ----- removing a node -------------------------------------------------------------

  /** RemoveNode's filter. */
  function Keep(ring: seq<nat>, owner: map<nat, Addr>, x: Addr): seq<nat>
    requires forall h <- ring :: h in owner
  {
    if ring == [] then []
    else if owner[ring[0]] == x then Keep(ring[1..], owner, x)
    else [ring[0]] + Keep(ring[1..], owner, x)
  }

  lemma {:induction false} KeepMembers(ring: seq<nat>, owner: map<nat, Addr>, x: Addr)
    requires forall h <- ring :: h in owner
    ensures forall h :: h in Keep(ring, owner, x) <==> h in ring && owner[h] != x
    ensures Increasing(ring) ==> Increasing(Keep(ring, owner, x))
  {
    if ring != [] {
      KeepMembers(ring[1..], owner, x);
      var rest := Keep(ring[1..], owner, x);
      assert forall h :: h in ring <==> h == ring[0] || h in ring[1..];
      if Increasing(ring) {
        forall i | 0 <= i < |rest| ensures ring[0] < rest[i] {
          assert rest[i] in ring[1..];
          var j :| 0 <= j < |ring[1..]| && ring[1..][j] == rest[i];
          assert ring[j + 1] == rest[i];
        }
      }
    }
  }

  lemma {:induction false} KeepConcat(a: seq<nat>, b: seq<nat>, owner: map<nat, Addr>, x: Addr)
    requires forall h <- a + b :: h in owner
    ensures forall h <- a :: h in owner
    ensures forall h <- b :: h in owner
    ensures Keep(a + b, owner, x) == Keep(a, owner, x) + Keep(b, owner, x)
  {
    assert forall h :: h in a ==> h in a + b;
    assert forall h :: h in b ==> h in a + b;
    if a == [] {
      assert a + b == b;
    } else {
      assert (a + b)[1..] == a[1..] + b;
      KeepConcat(a[1..], b, owner, x);
    }
  }

  lemma {:induction false} SplitMembers(ring: seq<nat>, h: nat)
    ensures forall x :: x in AtOrAfter(ring, h) <==> x in ring && x >= h
    ensures forall x :: x in Before(ring, h) <==> x in ring && x < h
  {
    if ring != [] {
      SplitMembers(ring[1..], h);
      assert forall x :: x in ring <==> x == ring[0] || x in ring[1..];
    }
  }

  /** Filtering commutes with splitting the ring at a hash. */
  lemma {:induction false} KeepSplit(ring: seq<nat>, owner: map<nat, Addr>, x: Addr, h: nat)
    requires forall r <- ring :: r in owner
    ensures (forall r <- AtOrAfter(ring, h) :: r in owner) && (forall r <- Before(ring, h) :: r in owner)
    ensures AtOrAfter(Keep(ring, owner, x), h) == Keep(AtOrAfter(ring, h), owner, x)
    ensures Before(Keep(ring, owner, x), h) == Keep(Before(ring, h), owner, x)
  {
    SplitMembers(ring, h);
    if ring != [] {
      KeepSplit(ring[1..], owner, x, h);
      var r := ring[0];
      assert ([r] + AtOrAfter(ring[1..], h))[1..] == AtOrAfter(ring[1..], h);
      assert ([r] + Before(ring[1..], h))[1..] == Before(ring[1..], h);
      assert ([r] + Keep(ring[1..], owner, x))[1..] == Keep(ring[1..], owner, x);
    }
  }

  /** The walk after a removal is the old walk without the removed positions. */
  lemma {:induction false} KeepClockwise(ring: seq<nat>, owner: map<nat, Addr>, x: Addr, h: nat)
    requires forall r <- ring :: r in owner
    ensures forall r <- Clockwise(ring, h) :: r in owner
    ensures Clockwise(Keep(ring, owner, x), h) == Keep(Clockwise(ring, h), owner, x)
  {
    hide Keep, AtOrAfter, Before;
    KeepSplit(ring, owner, x, h);
    KeepConcat(AtOrAfter(ring, h), Before(ring, h), owner, x);
  }

  lemma {:induction false} KeepSnoc(hs: seq<nat>, r: nat, owner: map<nat, Addr>, x: Addr)
    requires r in owner && forall h <- hs :: h in owner
    ensures Keep(hs + [r], owner, x) == if owner[r] == x then Keep(hs, owner, x) else Keep(hs, owner, x) + [r]
  {
    KeepConcat(hs, [r], owner, x);
    assert [r][1..] == [];
  }

  lemma {:induction false} NamesSnoc(hs: seq<nat>, r: nat, owner: map<nat, Addr>)
    requires r in owner && forall h <- hs :: h in owner
    ensures Names(hs + [r], owner) == Names(hs, owner) + [owner[r]]
  {
    assert (hs + [r])[..|hs|] == hs;
  }

  lemma {:induction false} EraseSnoc(s: seq<Addr>, a: Addr, x: Addr)
    ensures Erase(s + [a], x) == if a == x then Erase(s, x) else Erase(s, x) + [a]
  {
    assert (s + [a])[..|s|] == s;
  }

  lemma {:induction false} NothingNamed(owner: map<nat, Addr>, x: Addr)
    ensures Names([], owner) == [] && Erase([], x) == []
  {}

  /** Names of the kept positions are the names without `x`, under any map that agrees on them. */
  lemma {:induction false} NamesOfKept(hs: seq<nat>, owner: map<nat, Addr>, owner': map<nat, Addr>, x: Addr)
    requires forall h <- hs :: h in owner
    requires forall h <- hs :: owner[h] != x ==> h in owner' && owner'[h] == owner[h]
    ensures forall h <- Keep(hs, owner, x) :: h in owner'
    ensures Names(Keep(hs, owner, x), owner') == Erase(Names(hs, owner), x)
  {
    hide Keep, Increasing, Names, Erase;
    KeepMembers(hs, owner, x);
    if hs == [] {
      KeepNothing(owner, x);
      assert Names([], owner) == [] && Names([], owner') == [] && Erase([], x) == [] by { NothingNamed(owner, x); NothingNamed(owner', x); }
    } else {
      var n := |hs| - 1;
      var init, last := hs[..n], hs[n];
      assert hs == init + [last];
      NamesOfKept(init, owner, owner', x);
      KeepSnoc(init, last, owner, x);
      NamesSnoc(init, last, owner);
      EraseSnoc(Names(init, owner), owner[last], x);
      if owner[last] != x { NamesSnoc(Keep(init, owner, x), last, owner'); }
    }
  }

  lemma {:induction false} KeepNothing(owner: map<nat, Addr>, x: Addr)
    ensures Keep([], owner, x) == []
  {}

  lemma {:induction false} EraseMembers(s: seq<Addr>, x: Addr)
    ensures forall a :: a in Erase(s, x) <==> a in s && a != x
  {
    if s != [] { EraseMembers(s[..|s| - 1], x); }
  }

  /** Erasing a node before or after removing duplicates is the same. */
  lemma {:induction false} DedupErase(walk: seq<Addr>, x: Addr)
    ensures Dedup(Erase(walk, x)) == Erase(Dedup(walk), x)
  {
    if walk != [] {
      var n := |walk| - 1;
      var init, last := walk[..n], walk[n];
      DedupErase(init, x);
      EraseMembers(Dedup(init), x);
      var e := Erase(init, x);
      assert (e + [last])[..|e|] == e;
      var d := Dedup(init);
      assert (d + [last])[..|d|] == d;
    }
  }

  /** After RemoveNode(x) the owners of every key are the old owners with `x` erased. */
  lemma {:induction false} RemovalErases(ring: seq<nat>, owner: map<nat, Addr>, owner': map<nat, Addr>, x: Addr, h: nat)
    requires forall r <- ring :: r in owner
    requires forall r <- ring :: owner[r] != x ==> r in owner' && owner'[r] == owner[r]
    ensures forall r <- Keep(ring, owner, x) :: r in owner'
    ensures Owners(Keep(ring, owner, x), owner', h) == Erase(Owners(ring, owner, h), x)
  {
    KeepMembers(ring, owner, x);
    ClockwiseMembers(ring, h);
    ClockwiseMembers(Keep(ring, owner, x), h);
    hide Keep, Clockwise, Dedup, Erase, Names;
    KeepClockwise(ring, owner, x, h);
    NamesOfKept(Clockwise(ring, h), owner, owner', x);
    DedupErase(Names(Clockwise(ring, h), owner), x);
  }

  function Take(s: seq<Addr>, n: int): seq<Addr> {
    if n <= 0 then [] else if n >= |s| then s else s[..n]
  }

  lemma {:induction false} ErasePosition(s: seq<Addr>, x: Addr, i: nat)
    requires i < |s| && s[i] != x
    ensures exists j :: 0 <= j <= i && j < |Erase(s, x)| && Erase(s, x)[j] == s[i]
    ensures x !in s[..i] ==> i < |Erase(s, x)| && Erase(s, x)[i] == s[i]
  {
    var n := |s| - 1;
    if i < n {
      ErasePosition(s[..n], x, i);
      assert s[..n][..i] == s[..i];
      var e := Erase(s[..n], x);
      var j :| 0 <= j <= i && j < |e| && e[j] == s[i];
      assert Erase(s, x)[j] == s[i];
    } else {
      EraseLength(s[..n], x);
      assert s[..n] == s[..i];
      assert Erase(s, x)[|Erase(s[..n], x)|] == s[i];
    }
  }

  lemma {:induction false} EraseLength(s: seq<Addr>, x: Addr)
    ensures |Erase(s, x)| <= |s| && (x !in s ==> Erase(s, x) == s)
  {
    if s != [] { EraseLength(s[..|s| - 1], x); }
  }

  /** Minimal disruption: a replica of a key among its first `n` owners stays among them when
      another node leaves, and a key whose primary stays keeps that primary. */
  lemma {:induction false} SurvivorsKept(owners: seq<Addr>, x: Addr, n: nat, i: nat)
    requires i < n && i < |owners| && owners[i] != x
    ensures owners[i] in Take(Erase(owners, x), n)
    ensures i == 0 ==> Erase(owners, x) != [] && Erase(owners, x)[0] == owners[0]
  {
    ErasePosition(owners, x, i);
    var j :| 0 <= j <= i && j < |Erase(owners, x)| && Erase(owners, x)[j] == owners[i];
    assert Take(Erase(owners, x), n)[j] == owners[i];
  }

  // ----- the walk as the loop sees it ---------------------------------------------------

  lemma {:induction false} AllBefore(ring: seq<nat>, h: nat)
    requires forall i :: 0 <= i < |ring| ==> ring[i] < h
    ensures AtOrAfter(ring, h) == [] && Before(ring, h) == ring
  {
    if ring != [] {
      AllBefore(ring[1..], h);
      assert ring == [ring[0]] + ring[1..];
    }
  }

  /** Splitting a sorted ring at a hash cuts it at the position `search` finds. */
  lemma {:induction false} SplitAtIndex(ring: seq<nat>, h: nat, idx: nat)
    requires idx <= |ring|
    requires forall i :: 0 <= i < idx ==> ring[i] < h
    requires forall i :: idx <= i < |ring| ==> ring[i] >= h
    ensures AtOrAfter(ring, h) == ring[idx..] && Before(ring, h) == ring[..idx]
  {
    if ring != [] {
      var tail := ring[1..];
      if idx > 0 {
        SplitAtIndex(tail, h, idx - 1);
        assert tail[idx - 1..] == ring[idx..] && [ring[0]] + tail[..idx - 1] == ring[..idx];
      } else {
        SplitAtIndex(tail, h, 0);
        assert [ring[0]] + tail[0..] == ring[0..];
      }
    }
  }

  lemma {:induction false} DedupProps(walk: seq<Addr>)
    ensures forall a :: a in Dedup(walk) <==> a in walk
    ensures forall i, j :: 0 <= i < j < |Dedup(walk)| ==> Dedup(walk)[i] != Dedup(walk)[j]
  {
    if walk != [] { DedupProps(walk[..|walk| - 1]); }
  }

  lemma {:induction false} DedupPrefix(a: seq<Addr>, b: seq<Addr>)
    ensures Dedup(a) <= Dedup(a + b)
    decreases |b|
  {
    if b == [] {
      assert a + b == a;
    } else {
      var n := |b| - 1;
      DedupPrefix(a, b[..n]);
      assert (a + b)[..|a + b| - 1] == a + b[..n];
    }
  }

  lemma {:induction false} NamesAt(hs: seq<nat>, owner: map<nat, Addr>)
    requires forall h <- hs :: h in owner
    ensures |Names(hs, owner)| == |hs|
    ensures forall i :: 0 <= i < |hs| ==> hs[i] in owner && Names(hs, owner)[i] == owner[hs[i]]
  {
    if hs != [] { NamesAt(hs[..|hs| - 1], owner); }
  }

  lemma {:induction false} DistinctSubset(s: seq<Addr>, nodes: set<Addr>)
    requires forall i, j :: 0 <= i < j < |s| ==> s[i] != s[j]
    requires forall a <- s :: a in nodes
    ensures |s| <= |nodes|
  {
    if s != [] {
      var n := |s| - 1;
      assert forall a <- s[..n] :: a in nodes - {s[n]};
      DistinctSubset(s[..n], nodes - {s[n]});
    }
  }

  // ----- what nearest means --------------------------------------------------------------

  /** Going clockwise from hash `h`, position `a` comes strictly before position `b`: positions at
      or after the hash first, in increasing order, then those before it. */
  predicate Nearer(h: nat, a: nat, b: nat) {
    if a >= h then b < h || a < b else b < h && a < b
  }

  /** `p` is the first position of node `a` clockwise from `h`. */
  ghost predicate FirstOf(ring: seq<nat>, owner: map<nat, Addr>, h: nat, a: Addr, p: nat) {
    && p in ring && p in owner && owner[p] == a
    && forall q <- ring :: q in owner && owner[q] == a && q != p ==> Nearer(h, p, q)
  }

  lemma {:induction false} PartsIncreasing(ring: seq<nat>, h: nat)
    requires Increasing(ring)
    ensures Increasing(AtOrAfter(ring, h)) && Increasing(Before(ring, h))
  {
    if ring != [] {
      var tail := ring[1..];
      PartsIncreasing(tail, h);
      SplitMembers(tail, h);
      HeadFirst(ring);
      hide AtOrAfter, Before;
      ConsIncreasing(ring[0], AtOrAfter(tail, h));
      ConsIncreasing(ring[0], Before(tail, h));
      PartsStep(ring, h);
    }
  }

  lemma {:induction false} HeadFirst(ring: seq<nat>)
    requires ring != [] && Increasing(ring)
    ensures Increasing(ring[1..]) && forall x <- ring[1..] :: ring[0] < x
  {}

  lemma {:induction false} ConsIncreasing(x: nat, ring: seq<nat>)
    requires Increasing(ring)
    ensures (forall y <- ring :: x < y) ==> Increasing([x] + ring)
  {
    if forall y <- ring :: x < y {
      var all := [x] + ring;
      forall i, j | 0 <= i < j < |all| ensures all[i] < all[j] {
        assert all[j] == ring[j - 1] && ring[j - 1] in ring;
        if i > 0 { assert all[i] == ring[i - 1]; }
      }
    }
  }

  lemma {:induction false} PartsStep(ring: seq<nat>, h: nat)
    requires ring != []
    ensures AtOrAfter(ring, h) == (if ring[0] >= h then [ring[0]] else []) + AtOrAfter(ring[1..], h)
    ensures Before(ring, h) == (if ring[0] < h then [ring[0]] else []) + Before(ring[1..], h)
  {}

  /** The walk meets the positions in clockwise order from the hash. */
  lemma {:induction false} WalkIsClockwise(ring: seq<nat>, h: nat, i: nat, j: nat)
    requires Increasing(ring) && i < j < |Clockwise(ring, h)|
    ensures Nearer(h, Clockwise(ring, h)[i], Clockwise(ring, h)[j])
  {
    hide AtOrAfter, Before, Increasing;
    PartsIncreasing(ring, h);
    SplitMembers(ring, h);
    var a, b := AtOrAfter(ring, h), Before(ring, h);
    var n := |a|;
    var x, y := Clockwise(ring, h)[i], Clockwise(ring, h)[j];
    assert x == if i < n then a[i] else b[i - n];
    assert y == if j < n then a[j] else b[j - n];
    if j < n {
      IncreasingAt(a, i, j);
    } else if i >= n {
      IncreasingAt(b, i - n, j - n);
    }
    assert x in (if i < n then a else b) && y in (if j < n then a else b);
  }

  lemma {:induction false} IncreasingAt(ring: seq<nat>, i: nat, j: nat)
    requires Increasing(ring) && i < j < |ring|
    ensures ring[i] < ring[j]
  {}

  /** Where a name first occurs in a walk. */
  ghost predicate FirstAt(walk: seq<Addr>, a: Addr, p: nat) {
    p < |walk| && walk[p] == a && a !in walk[..p]
  }

  lemma {:induction false} DedupFirst(walk: seq<Addr>, i: nat) returns (p: nat)
    requires i < |Dedup(walk)|
    ensures FirstAt(walk, Dedup(walk)[i], p)
  {
    var n := |walk| - 1;
    var rest := Dedup(walk[..n]);
    if i < |rest| {
      p := DedupFirst(walk[..n], i);
      assert walk[..n][..p] == walk[..p];
    } else {
      DedupProps(walk[..n]);
      p := n;
    }
  }

  /** Deduplication lists names in the order of their first occurrences. */
  lemma {:induction false} DedupInOrder(walk: seq<Addr>, i: nat, j: nat, p: nat, q: nat)
    requires i < j < |Dedup(walk)| && FirstAt(walk, Dedup(walk)[i], p) && FirstAt(walk, Dedup(walk)[j], q)
    ensures p < q
  {
    var n := |walk| - 1;
    var rest := Dedup(walk[..n]);
    DedupProps(walk[..n]);
    if j < |rest| {
      var p' := DedupFirst(walk[..n], i);
      var q' := DedupFirst(walk[..n], j);
      DedupInOrder(walk[..n], i, j, p', q');
      assert walk[..n][..p'] == walk[..p'] && walk[..n][..q'] == walk[..q'];
      SameFirst(walk, Dedup(walk)[i], p, p');
      SameFirst(walk, Dedup(walk)[j], q, q');
    } else {
      assert q == n by { SameFirst(walk, walk[n], q, n); }
      assert p != n;
    }
  }

  lemma {:induction false} SameFirst(walk: seq<Addr>, a: Addr, p: nat, q: nat)
    requires FirstAt(walk, a, p) && FirstAt(walk, a, q)
    ensures p == q
  {
    NoneBefore(walk, a, p);
    NoneBefore(walk, a, q);
  }

  lemma {:induction false} NoneBefore(walk: seq<Addr>, a: Addr, p: nat)
    requires FirstAt(walk, a, p)
    ensures forall i :: 0 <= i < p ==> walk[i] != a
  {
    forall i | 0 <= i < p ensures walk[i] != a { assert walk[i] == walk[..p][i]; }
  }

  /** Owners are listed by distance: of any two, the earlier one's first position clockwise from
      the key comes before the later one's. */
  lemma {:induction false} OwnersByDistance(ring: seq<nat>, owner: map<nat, Addr>, h: nat, i: nat, j: nat) returns (p: nat, q: nat)
    requires Increasing(ring) && (forall r <- ring :: r in owner) && i < j < |Owners(ring, owner, h)|
    ensures var o := Owners(ring, owner, h);
      FirstOf(ring, owner, h, o[i], p) && FirstOf(ring, owner, h, o[j], q) && Nearer(h, p, q)
  {
    ClockwiseMembers(ring, h);
    hide Clockwise, Dedup, Names, FirstOf, FirstAt, Nearer, Increasing;
    var walk := Clockwise(ring, h);
    var names := Names(walk, owner);
    NamesAt(walk, owner);
    var a := DedupFirst(names, i);
    var b := DedupFirst(names, j);
    DedupInOrder(names, i, j, a, b);
    FirstPosition(ring, owner, h, Dedup(names)[i], a);
    FirstPosition(ring, owner, h, Dedup(names)[j], b);
    WalkIsClockwise(ring, h, a, b);
    p, q := walk[a], walk[b];
  }

  lemma {:induction false} FirstPosition(ring: seq<nat>, owner: map<nat, Addr>, h: nat, a: Addr, k: nat)
    requires Increasing(ring) && (forall r <- ring :: r in owner) && (forall r <- Clockwise(ring, h) :: r in owner)
    requires FirstAt(Names(Clockwise(ring, h), owner), a, k)
    ensures k < |Clockwise(ring, h)| && FirstOf(ring, owner, h, a, Clockwise(ring, h)[k])
  {
    var walk := Clockwise(ring, h);
    var names := Names(walk, owner);
    NamesAt(walk, owner);
    ClockwiseMembers(ring, h);
    NoneBefore(names, a, k);
    hide Clockwise, Names, Increasing, Nearer;
    forall q | q in ring && owner[q] == a && q != walk[k] ensures Nearer(h, walk[k], q) {
      assert q in walk;
      var m :| 0 <= m < |walk| && walk[m] == q;
      WalkIsClockwise(ring, h, k, m);
    }
    assert walk[k] in walk;
  }

  lemma {:induction false} FirstStays(names: seq<Addr>)
    requires names != []
    ensures Dedup(names) != [] && Dedup(names)[0] == names[0]
  {
    assert names == [names[0]] + names[1..];
    DedupPrefix([names[0]], names[1..]);
    assert Dedup([names[0]]) == [names[0]] by { assert [names[0]][..0] == []; }
  }

  /** The first owner has the position nearest to the key of all. */
  lemma {:induction false} PrimaryIsNearest(ring: seq<nat>, owner: map<nat, Addr>, h: nat)
    requires Increasing(ring) && (forall r <- ring :: r in owner) && ring != []
    ensures Owners(ring, owner, h) != []
    ensures exists p <- ring :: owner[p] == Owners(ring, owner, h)[0] && forall q <- ring :: q != p ==> Nearer(h, p, q)
  {
    ClockwiseMembers(ring, h);
    var walk := Clockwise(ring, h);
    var names := Names(walk, owner);
    NamesAt(walk, owner);
    hide Clockwise, Names, Increasing, Nearer, Dedup;
    assert ring[0] in ring && ring[0] in walk;
    FirstStays(names);
    var p := walk[0];
    assert p in walk;
    forall q | q in ring && q != p ensures Nearer(h, p, q) {
      assert q in walk;
      var m :| 0 <= m < |walk| && walk[m] == q;
      WalkIsClockwise(ring, h, 0, m);
    }
  }

  // ----- sorting ring positions ----------------------------------------------------------

  function Insert(h: nat, ring: seq<nat>): seq<nat> {
    if ring == [] then [h] else if h < ring[0] then [h] + ring else [ring[0]] + Insert(h, ring[1..])
  }

  function Sort(ring: seq<nat>): seq<nat> {
    if ring == [] then [] else Insert(ring[|ring| - 1], Sort(ring[..|ring| - 1]))
  }

  lemma {:induction false} InsertProps(h: nat, ring: seq<nat>)
    requires Increasing(ring) && h !in ring
    ensures Increasing(Insert(h, ring)) && forall x :: x in Insert(h, ring) <==> x == h || x in ring
  {
    if ring != [] && h >= ring[0] {
      var tail := ring[1..];
      InsertProps(h, tail);
      var rest := Insert(h, tail);
      assert forall x :: x in ring <==> x == ring[0] || x in tail;
      forall i | 0 <= i < |rest| ensures ring[0] < rest[i] {
        if rest[i] != h {
          assert rest[i] in tail;
          var j :| 0 <= j < |tail| && tail[j] == rest[i];
          assert ring[j + 1] == rest[i];
        }
      }
    }
  }

  lemma {:induction false} SortProps(ring: seq<nat>)
    requires forall i, j :: 0 <= i < j < |ring| ==> ring[i] != ring[j]
    ensures Increasing(Sort(ring)) && forall x :: x in Sort(ring) <==> x in ring
  {
    if ring != [] {
      var n := |ring| - 1;
      SortProps(ring[..n]);
      assert ring[n] !in ring[..n];
      InsertProps(ring[n], Sort(ring[..n]));
    }
  }

  /** A strictly increasing sequence is determined by its members. */
  lemma {:induction false} IncreasingUnique(a: seq<nat>, b: seq<nat>)
    requires Increasing(a) && Increasing(b) && forall x :: x in a <==> x in b
    ensures a == b
  {
    assert a == [] <==> b == [] by {
      if a != [] { assert a[0] in b; }
      if b != [] { assert b[0] in a; }
    }
    if a != [] {
      assert a[0] in b && b[0] in a;
      var i :| 0 <= i < |b| && b[i] == a[0];
      var j :| 0 <= j < |a| && a[j] == b[0];
      assert a[0] == b[0];
      forall x ensures x in a[1..] <==> x in b[1..] {
        TailMember(a, x);
        TailMember(b, x);
      }
      IncreasingUnique(a[1..], b[1..]);
      assert a == [a[0]] + a[1..] && b == [b[0]] + b[1..];
    }
  }

  lemma {:induction false} TailMember(a: seq<nat>, x: nat)
    requires a != [] && Increasing(a)
    ensures x in a[1..] <==> x in a && x != a[0]
  {
    if x in a && x != a[0] {
      var i :| 0 <= i < |a| && a[i] == x;
      assert a[1..][i - 1] == x;
    }
  }

  // ----- the ring -------------------------------------------------------------------------

  /** The slots left when only those of `x` among `rest` are still to be deleted. */
  function Remaining(m: map<nat, Addr>, rest: seq<nat>, x: Addr): map<nat, Addr> {
    map h | h in m && (m[h] != x || h in rest) :: m[h]
  }

  lemma {:induction false} RemainingStep(m: map<nat, Addr>, h: nat, rest: seq<nat>, x: Addr)
    requires h in m && h !in rest
    ensures h in Remaining(m, [h] + rest, x) && Remaining(m, [h] + rest, x)[h] == m[h]
    ensures Remaining(m, rest, x) == if m[h] == x then Remaining(m, [h] + rest, x) - {h} else Remaining(m, [h] + rest, x)
  {
    assert forall a :: a in [h] + rest <==> a == h || a in rest;
  }

  lemma {:induction false} NotAgain(ring: seq<nat>, i: nat)
    requires Increasing(ring) && i < |ring|
    ensures ring[i] !in ring[i + 1..]
  {}

  lemma {:induction false} DedupSnoc(walk: seq<Addr>, i: nat)
    requires i < |walk|
    ensures Dedup(walk[..i + 1]) == if walk[i] in Dedup(walk[..i]) then Dedup(walk[..i]) else Dedup(walk[..i]) + [walk[i]]
  {
    assert walk[..i + 1][..i] == walk[..i];
  }

  lemma {:induction false} DedupNothing()
    ensures Dedup([]) == []
  {}

  /** The new slot table: free virtual positions of `x` are taken, everything else is kept. */
  ghost predicate SlotsTaken(before: map<nat, Addr>, after: map<nat, Addr>, x: Addr, hashing: Hashing, n: nat) {
    && (forall h :: h in after <==> h in before || exists i :: 0 <= i < n && h == hashing.ofVirtual(x, i))
    && (forall h <- after.Keys :: after[h] == if h in before then before[h] else x)
  }

  /** AddNode's loop over the virtual nodes. */
  method TakeSlots(ring: seq<nat>, m0: map<nat, Addr>, x: Addr, hashing: Hashing, n: nat)
    returns (all: seq<nat>, m: map<nat, Addr>)
    requires Increasing(ring) && forall h :: h in ring <==> h in m0
    ensures SlotsTaken(m0, m, x, hashing, n)
    ensures (forall a, b :: 0 <= a < b < |all| ==> all[a] != all[b]) && forall h :: h in all <==> h in m
  {
    all, m := ring, m0;
    var i := 0;
    while i < n
      invariant 0 <= i <= n && SlotsTaken(m0, m, x, hashing, i)
      invariant forall a, b :: 0 <= a < b < |all| ==> all[a] != all[b]
      invariant forall h :: h in all <==> h in m
    {
      var h := hashing.ofVirtual(x, i);
      ghost var before := m;
      if h !in m {
        m := m[h := x];
        all := all + [h];
      }
      SlotStep(m0, before, m, x, hashing, i);
      i := i + 1;
    }
  }

  lemma {:induction false} SlotStep(m0: map<nat, Addr>, m: map<nat, Addr>, m': map<nat, Addr>, x: Addr, hashing: Hashing, i: nat)
    requires SlotsTaken(m0, m, x, hashing, i)
    requires var h := hashing.ofVirtual(x, i); m' == if h in m then m else m[h := x]
    ensures SlotsTaken(m0, m', x, hashing, i + 1)
  {
    var h := hashing.ofVirtual(x, i);
    forall k ensures k in m' <==> k in m0 || exists j :: 0 <= j < i + 1 && k == hashing.ofVirtual(x, j) {
      if k == h { assert 0 <= i < i + 1 && k == hashing.ofVirtual(x, i); }
    }
  }

  /** RemoveNode's in-place filter. */
  method FilterSlots(ring: seq<nat>, m0: map<nat, Addr>, x: Addr) returns (filtered: seq<nat>, m: map<nat, Addr>)
    requires Increasing(ring) && forall h :: h in ring <==> h in m0
    ensures filtered == Keep(ring, m0, x) && m == Remaining(m0, [], x)
  {
    hide Keep, Increasing;
    filtered, m := [], m0;
    var i := 0;
    assert ring[..0] == [] && ring[0..] == ring;
    KeepNothing(m0, x);
    assert m == Remaining(m0, ring, x);
    hide Remaining;
    while i < |ring|
      invariant 0 <= i <= |ring| && filtered == Keep(ring[..i], m0, x) && m == Remaining(m0, ring[i..], x)
    {
      var h := ring[i];
      assert ring[..i + 1] == ring[..i] + [h] && ring[i..] == [h] + ring[i + 1..];
      KeepSnoc(ring[..i], h, m0, x);
      NotAgain(ring, i);
      RemainingStep(m0, h, ring[i + 1..], x);
      if m[h] == x {
        m := m - {h};
      } else {
        filtered := filtered + [h];
      }
      i := i + 1;
    }
    assert ring[..|ring|] == ring && ring[|ring|..] == [];
  }

  /** The names met from ring position `start` on, once around. */
  ghost function Around(ring: seq<nat>, owner: map<nat, Addr>, start: nat): (names: seq<Addr>)
    requires start < |ring| && forall h <- ring :: h in owner
    ensures |names| == |ring|
  {
    RotationMembers(ring, start);
    NamesAt(ring[start..] + ring[..start], owner);
    Names(ring[start..] + ring[..start], owner)
  }

  lemma {:induction false} AroundAt(ring: seq<nat>, owner: map<nat, Addr>, start: nat, i: nat)
    requires start < |ring| && i < |ring| && forall h <- ring :: h in owner
    ensures (start + i) % |ring| < |ring| && Around(ring, owner, start)[i] == owner[ring[(start + i) % |ring|]]
  {
    RotationMembers(ring, start);
    NamesAt(ring[start..] + ring[..start], owner);
    RotationAt(ring, start, i);
  }

  lemma {:induction false} DedupCut(names: seq<Addr>, i: nat, limit: nat)
    requires i <= |names| && |Dedup(names[..i])| <= limit
    requires i == |names| || |Dedup(names[..i])| == limit
    ensures Dedup(names[..i]) == Take(Dedup(names), limit)
  {
    hide Dedup;
    assert names == names[..i] + names[i..];
    DedupPrefix(names[..i], names[i..]);
    if i == |names| { assert names[..i] == names; }
    assert |Dedup(names[..i])| == limit ==> Dedup(names)[..limit] == Dedup(names[..i]);
  }

  /** GetNodes' clockwise loop, stopping once enough distinct nodes were met. */
  method Walk(ring: seq<nat>, owner: map<nat, Addr>, start: nat, limit: nat) returns (result: seq<Addr>)
    requires start < |ring| && forall h <- ring :: h in owner
    ensures result == Take(Dedup(Around(ring, owner, start)), limit)
  {
    ghost var names := Around(ring, owner, start);
    DedupNothing();
    hide Dedup, Around, Take;
    result := [];
    var i := 0;
    assert names[..0] == [];
    while i < |ring| && |result| < limit
      invariant 0 <= i <= |ring| && |result| <= limit
      invariant result == Dedup(names[..i])
      decreases |ring| - i
    {
      AroundAt(ring, owner, start, i);
      var node := owner[ring[(start + i) % |ring|]];
      DedupSnoc(names, i);
      if node !in result { result := result + [node]; }
      i := i + 1;
    }
    DedupCut(names, i, limit);
  }

  /** The positions are sorted, and the slot table names a member for exactly these positions. */
  ghost predicate Consistent(ring: seq<nat>, slots: map<nat, Addr>, nodes: set<Addr>) {
    && Increasing(ring)
    && (forall h :: h in ring <==> h in slots)
    && (forall h <- slots.Keys :: slots[h] in nodes)
  }

  lemma {:induction false} RemovalConsistent(ring: seq<nat>, slots: map<nat, Addr>, nodes: set<Addr>, x: Addr)
    requires Consistent(ring, slots, nodes)
    ensures Increasing(ring) && forall h :: h in ring <==> h in slots
    ensures Consistent(Keep(ring, slots, x), Remaining(slots, [], x), nodes - {x})
    ensures x !in nodes ==> Keep(ring, slots, x) == ring && Remaining(slots, [], x) == slots && nodes - {x} == nodes
  {
    hide Keep, Increasing;
    KeepMembers(ring, slots, x);
    if x !in nodes {
      NothingRemoved(ring, slots, x);
      assert Remaining(slots, [], x) == slots;
    }
  }

  class Ring {
    const hashing: Hashing
    const virtualNodes: nat
    var ring: seq<nat>
    var nodeMap: map<nat, Addr>
    var nodes: set<Addr>

    ghost predicate Valid()
      reads this
    {
      Consistent(ring, nodeMap, nodes)
    }

    /** New: a non-positive count falls back to 150 virtual nodes. */
    constructor (hashing: Hashing, virtualNodes: int)
      ensures Valid() && ring == [] && nodeMap == map[] && nodes == {} && this.hashing == hashing
      ensures this.virtualNodes == if virtualNodes <= 0 then 150 else virtualNodes
    {
      this.hashing := hashing;
      this.virtualNodes := if virtualNodes <= 0 then 150 else virtualNodes;
      ring, nodeMap, nodes := [], map[], {};
    }

    /** AddNode: an absent node takes every free slot among its virtual positions, and no slot
        changes its owner. */
    method AddNode(addr: Addr)
      requires Valid()
      modifies this
      ensures Valid() && nodes == old(nodes) + {addr}
      ensures addr in old(nodes) ==> ring == old(ring) && nodeMap == old(nodeMap)
      ensures addr !in old(nodes) ==> SlotsTaken(old(nodeMap), nodeMap, addr, hashing, virtualNodes)
    {
      if addr in nodes { return; }
      nodes := nodes + {addr};
      var all, m := TakeSlots(ring, nodeMap, addr, hashing, virtualNodes);
      SortProps(all);
      hide Sort, Increasing;
      ring, nodeMap := Sort(all), m;
    }

    /** RemoveNode: drop the node and all its slots. */
    method RemoveNode(addr: Addr)
      requires Valid()
      modifies this
      ensures Valid() && nodes == old(nodes) - {addr}
      ensures forall h <- old(ring) :: h in old(nodeMap)
      ensures ring == Keep(old(ring), old(nodeMap), addr)
      ensures nodeMap == Remaining(old(nodeMap), [], addr)
    {
      RemovalConsistent(ring, nodeMap, nodes, addr);
      hide Keep, Remaining, Consistent;
      if addr !in nodes { return; }
      var filtered, m := FilterSlots(ring, nodeMap, addr);
      nodes := nodes - {addr};
      ring, nodeMap := filtered, m;
    }

    /** sort.Search with wrap-around: the first position at or after `h`, else zero. */
    method Search(h: nat) returns (idx: nat)
      requires Valid() && ring != []
      ensures idx < |ring| && (forall i :: 0 <= i < idx ==> ring[i] < h)
      ensures ring[idx] >= h || (idx == 0 && forall i :: 0 <= i < |ring| ==> ring[i] < h)
      ensures Clockwise(ring, h) == ring[idx..] + ring[..idx]
    {
      var lo, hi := 0, |ring|;
      while lo < hi
        invariant 0 <= lo <= hi <= |ring|
        invariant forall i :: 0 <= i < lo ==> ring[i] < h
        invariant forall i :: hi <= i < |ring| ==> ring[i] >= h
      {
        var mid := (lo + hi) / 2;
        if ring[mid] >= h { hi := mid; } else { lo := mid + 1; }
      }
      SplitAtIndex(ring, h, lo);
      idx := if lo == |ring| then 0 else lo;
      assert ring[|ring|..] + ring[..|ring|] == ring[0..] + ring[..0];
    }

    /** GetNodes: the first `n` distinct owners met clockwise from the key. */
    method GetNodes(key: string, n: int) returns (result: seq<Addr>)
      requires Valid()
      ensures forall h <- ring :: h in nodeMap
      ensures result == Take(Owners(ring, nodeMap, hashing.ofKey(key)), n)
    {
      hide Dedup, Names, Clockwise, Increasing;
      if ring == [] || n <= 0 {
        EmptyWalk(nodeMap, hashing.ofKey(key));
        return [];
      }
      ghost var h := hashing.ofKey(key);
      var limit := if n > |nodes| then |nodes| else n;
      OwnersBound(ring, nodeMap, h, nodes);
      var start := Search(hashing.ofKey(key));
      result := Walk(ring, nodeMap, start, limit);
      ClockwiseMembers(ring, h);
    }

    /** GetNode: the primary owner, or the empty address for an empty ring. */
    method GetNode(key: string) returns (r: Addr)
      requires Valid()
      ensures forall h <- ring :: h in nodeMap
      ensures ring == [] ==> r == ""
      ensures ring != [] ==> var o := Owners(ring, nodeMap, hashing.ofKey(key)); o != [] && r == o[0]
      ensures ring != [] ==> exists p <- ring :: nodeMap[p] == r && forall q <- ring :: q != p ==> Nearer(hashing.ofKey(key), p, q)
    {
      hide Owners, Clockwise, Increasing;
      if ring == [] { return ""; }
      ghost var h := hashing.ofKey(key);
      var idx := Search(hashing.ofKey(key));
      r := nodeMap[ring[idx]];
      FirstOwner(ring, nodeMap, h, idx);
      PrimaryIsNearest(ring, nodeMap, h);
    }
  }

  lemma {:induction false} FirstOwner(ring: seq<nat>, owner: map<nat, Addr>, h: nat, idx: nat)
    requires forall r <- ring :: r in owner
    requires idx < |ring| && Clockwise(ring, h) == ring[idx..] + ring[..idx]
    ensures var o := Owners(ring, owner, h); o != [] && o[0] == owner[ring[idx]]
  {
    hide Clockwise, Names;
    var walk := Clockwise(ring, h);
    var r := owner[ring[idx]];
    ClockwiseMembers(ring, h);
    NamesAt(walk, owner);
    assert walk[0] == ring[idx];
    FirstStays(Names(walk, owner));
  }

  lemma {:induction false} RotationMembers(ring: seq<nat>, start: nat)
    requires start < |ring|
    ensures forall h <- ring[start..] + ring[..start] :: h in ring
  {}

  lemma {:induction false} RotationAt(ring: seq<nat>, start: nat, i: nat)
    requires start < |ring| && i < |ring|
    ensures (ring[start..] + ring[..start])[i] == ring[(start + i) % |ring|]
  {
    WrapAround(start + i, |ring|);
  }

  lemma {:induction false} WrapAround(k: nat, n: nat)
    requires k < 2 * n
    ensures k % n == if k < n then k else k - n
  {
    if k >= n { assert k == n + (k - n); }
  }

  lemma {:induction false} EmptyWalk(owner: map<nat, Addr>, h: nat)
    ensures Owners([], owner, h) == []
  {}

  lemma {:induction false} NothingRemoved(ring: seq<nat>, owner: map<nat, Addr>, x: Addr)
    requires forall h <- ring :: h in owner && owner[h] != x
    ensures Keep(ring, owner, x) == ring
  {
    if ring != [] {
      NothingRemoved(ring[1..], owner, x);
      assert ring == [ring[0]] + ring[1..];
    }
  }

  /** Owners are distinct ring members, so there are at most as many as nodes. */
  lemma {:induction false} OwnersBound(ring: seq<nat>, owner: map<nat, Addr>, h: nat, nodes: set<Addr>)
    requires forall r <- ring :: r in owner && owner[r] in nodes
    ensures var o := Owners(ring, owner, h);
      && |o| <= |nodes|
      && (forall i, j :: 0 <= i < j < |o| ==> o[i] != o[j])
      && (forall a :: a in o <==> exists r <- ring :: owner[r] == a)
  {
    hide Clockwise, Dedup, Names;
    ClockwiseMembers(ring, h);
    var walk := Clockwise(ring, h);
    var names := Names(walk, owner);
    NamesAt(walk, owner);
    DedupProps(names);
    forall a | a in names ensures a in nodes && exists r <- ring :: owner[r] == a {
      var i :| 0 <= i < |names| && names[i] == a;
      assert walk[i] in ring;
    }
    forall r | r in ring ensures owner[r] in names {
      assert r in walk;
      var i :| 0 <= i < |walk| && walk[i] == r;
      assert names[i] == owner[r];
    }
    DistinctSubset(Dedup(names), nodes);
  }

  /** Removing a node that was just added restores the ring exactly, collisions included; so
      adding a node changes every key's owners only by inserting the new node among them. */
  lemma {:induction false} AddThenRemove(ring: seq<nat>, owner: map<nat, Addr>, ring': seq<nat>, owner': map<nat, Addr>, x: Addr, h: nat)
    requires Increasing(ring) && Increasing(ring')
    requires (forall r :: r in ring <==> r in owner) && (forall r :: r in ring' <==> r in owner')
    requires (forall r <- owner.Keys :: owner[r] != x && r in owner')
    requires forall r <- owner'.Keys :: owner'[r] == if r in owner then owner[r] else x
    ensures Keep(ring', owner', x) == ring
    ensures (map r | r in owner' && owner'[r] != x :: owner'[r]) == owner
    ensures Owners(ring, owner, h) == Erase(Owners(ring', owner', h), x)
  {
    hide Keep, Increasing, Owners, Erase;
    KeepMembers(ring', owner', x);
    forall r ensures r in Keep(ring', owner', x) <==> r in ring {
      assert r in ring' <==> r in owner';
      assert r in ring <==> r in owner;
    }
    IncreasingUnique(Keep(ring', owner', x), ring);
    RemovalErases(ring', owner', owner, x, h);
  }
}
