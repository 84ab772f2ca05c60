/**
 Vector clocks and the conflict rule `pickNewer` (metastore/vclock.go). Everything in
 the metastore rests on one fact proved here: for non-negative counters the three
 branches of `pickNewer` collapse to a maximum over the rank (clock sum, sample size).
 */
module VectorClock {
  import opened BigEndian

  /** A nil clock and an empty clock behave alike, so both are the empty map. */
  type Clock = map<Bytes, int>

  datatype StatEntry = StatEntry(
    entityId: Bytes, entityType: Bytes, patch: Bytes, region: Bytes, tier: Bytes,
    winRate: real, avgPlacement: real, playRate: real, sampleSize: int, clock: Clock)

  /** Go's map read: an absent counter is zero. */
  function At(c: Clock, node: Bytes): (v: int) {
    if node in c then c[node] else 0
  }

  // ----- sums over maps -------------------------------------------------------

  ghost function SumOn(c: Clock, nodes: set<Bytes>): int
  {
    if nodes == {} then 0
    else
      var node :| node in nodes;
      At(c, node) + SumOn(c, nodes - {node})
  }

  ghost function Sum(c: Clock): int {
    SumOn(c, c.Keys)
  }

  /** The sum may be split off at any node: the iteration order does not matter. */
  lemma {:induction false} SumOnSplit(c: Clock, nodes: set<Bytes>, node: Bytes)
    requires node in nodes
    ensures SumOn(c, nodes) == At(c, node) + SumOn(c, nodes - {node})
    decreases |nodes|
  {
    var first :| first in nodes && SumOn(c, nodes) == At(c, first) + SumOn(c, nodes - {first});
    if first != node {
      SumOnSplit(c, nodes - {first}, node);
      SumOnSplit(c, nodes - {node}, first);
      assert nodes - {first} - {node} == nodes - {node} - {first};
    }
  }

  /** Nodes outside the clock contribute nothing. */
  lemma {:induction false} SumOnWider(c: Clock, nodes: set<Bytes>)
    requires c.Keys <= nodes
    ensures SumOn(c, nodes) == Sum(c)
    decreases |nodes|
  {
    if nodes != c.Keys {
      var node :| node in nodes && node !in c;
      SumOnSplit(c, nodes, node);
      SumOnWider(c, nodes - {node});
    }
  }

  ghost predicate Below(a: Clock, b: Clock, nodes: set<Bytes>) {
    forall node <- nodes :: At(a, node) <= At(b, node)
  }

  lemma {:induction false} SumOnMonotone(a: Clock, b: Clock, nodes: set<Bytes>)
    requires Below(a, b, nodes)
    ensures SumOn(a, nodes) <= SumOn(b, nodes)
    decreases |nodes|
  {
    if nodes != {} {
      var node :| node in nodes;
      SumOnSplit(a, nodes, node);
      SumOnSplit(b, nodes, node);
      SumOnMonotone(a, b, nodes - {node});
    }
  }

  /** Pointwise at most, and smaller somewhere, means a smaller total; signs do not matter. */
  lemma {:induction false} SumStrict(a: Clock, b: Clock, node: Bytes)
    requires Below(a, b, a.Keys + b.Keys)
    requires At(a, node) < At(b, node)
    ensures Sum(a) < Sum(b)
  {
    var nodes := a.Keys + b.Keys;
    SumOnWider(a, nodes);
    SumOnWider(b, nodes);
    SumOnSplit(a, nodes, node);
    SumOnSplit(b, nodes, node);
    SumOnMonotone(a, b, nodes - {node});
  }

  // ----- vcSum, vcDominates, pickNewer ----------------------------------------

  /** vcSum: Go ranges over the map in an unspecified order. */
  method VcSum(c: Clock) returns (s: int)
    ensures s == Sum(c)
  {
    s := 0;
    var left := c.Keys;
    while left != {}
      invariant left <= c.Keys
      invariant s + SumOn(c, left) == Sum(c)
      decreases |left|
    {
      var node :| node in left;
      SumOnSplit(c, left, node);
      s := s + c[node];
      left := left - {node};
    }
  }

  /** vcDominates: only the nodes listed in `b` are compared. */
  predicate Dominates(a: Clock, b: Clock) {
    forall node <- b.Keys :: At(a, node) >= b[node]
  }

  ghost predicate NonNegative(c: Clock) {
    forall node <- c.Keys :: c[node] >= 0
  }

  ghost function PickNewer(a: Option<StatEntry>, b: Option<StatEntry>): Option<StatEntry> {
    if a.None? then b
    else if b.None? then a
    else Some(Newer(a.value, b.value))
  }

  ghost function Newer(a: StatEntry, b: StatEntry): StatEntry {
    var aDom := Dominates(a.clock, b.clock);
    var bDom := Dominates(b.clock, a.clock);
    if aDom && !bDom then a
    else if bDom && !aDom then b
    else if Sum(a.clock) != Sum(b.clock) then (if Sum(a.clock) > Sum(b.clock) then a else b)
    else if a.sampleSize >= b.sampleSize then a
    else b
  }

  method ComputeNewer(a: Option<StatEntry>, b: Option<StatEntry>) returns (r: Option<StatEntry>)
    ensures r == PickNewer(a, b)
  {
    if a.None? { return b; }
    if b.None? { return a; }
    var aDom := Dominates(a.value.clock, b.value.clock);
    var bDom := Dominates(b.value.clock, a.value.clock);
    if aDom && !bDom { return a; }
    if bDom && !aDom { return b; }
    var sa := VcSum(a.value.clock);
    var sb := VcSum(b.value.clock);
    if sa != sb {
      return if sa > sb then a else b;
    }
    return if a.value.sampleSize >= b.value.sampleSize then a else b;
  }

  // ----- the rank and the collapse --------------------------------------------

  /** Lexicographic order on (clock sum, sample size): `a` ranks at least as high as `b`. */
  ghost predicate AtLeast(a: StatEntry, b: StatEntry) {
    Sum(a.clock) > Sum(b.clock) || (Sum(a.clock) == Sum(b.clock) && a.sampleSize >= b.sampleSize)
  }

  ghost predicate SameRank(a: StatEntry, b: StatEntry) {
    Sum(a.clock) == Sum(b.clock) && a.sampleSize == b.sampleSize
  }

  /** Strict dominance between non-negative clocks means a strictly larger sum. */
  lemma {:induction false} StrictDominanceRaisesSum(a: Clock, b: Clock)
    requires NonNegative(a)
    requires Dominates(a, b) && !Dominates(b, a)
    ensures Sum(a) > Sum(b)
  {
    var node :| node in a.Keys && At(b, node) < a[node];
    SumStrict(b, a, node);
  }

  /** The collapse: `pickNewer` is the rank maximum, keeping its left argument on ties. */
  lemma {:induction false} NewerIsRankMax(a: StatEntry, b: StatEntry)
    requires NonNegative(a.clock) && NonNegative(b.clock)
    ensures Newer(a, b) == if AtLeast(a, b) then a else b
  {
    if Dominates(a.clock, b.clock) && !Dominates(b.clock, a.clock) {
      StrictDominanceRaisesSum(a.clock, b.clock);
    } else if Dominates(b.clock, a.clock) && !Dominates(a.clock, b.clock) {
      StrictDominanceRaisesSum(b.clock, a.clock);
    }
  }

  lemma {:induction false} NewerBeatsBoth(a: StatEntry, b: StatEntry)
    requires NonNegative(a.clock) && NonNegative(b.clock)
    ensures Newer(a, b) == a || Newer(a, b) == b
    ensures AtLeast(Newer(a, b), a) && AtLeast(Newer(a, b), b)
  {
    NewerIsRankMax(a, b);
  }

  function Probe(c: Clock, samples: int): StatEntry {
    StatEntry([], [], [], [], [], 0.0, 0.0, 0.0, samples, c)
  }

  /** With a negative counter the collapse fails, and so does transitivity of the choice:
      `x` beats `y`, `y` beats `z`, yet `z` beats `x`. */
  lemma {:induction false} NegativeCountersBreakTheOrder()
    ensures
      var m, n := [0 as byte], [1 as byte];
      var x := Probe(map[m := 1, n := -5], 0);
      var y := Probe(map[m := 0], 0);
      var z := Probe(map[n := -2], 0);
      && Newer(x, y) == x && !AtLeast(x, y)
      && Newer(y, z) == y
      && Newer(z, x) == z
  {
    var m, n := [0 as byte], [1 as byte];
    var cx: Clock := map[m := 1, n := -5];
    var cy: Clock := map[m := 0];
    var cz: Clock := map[n := -2];
    assert m != n by { assert m[0] != n[0]; }
    assert At(cy, m) < cx[m];
    SumOnSplit(cx, {m, n}, m);
    assert {m, n} - {m} == {n};
    SumOnSplit(cx, {n}, n);
    SumOnSplit(cy, {m}, m);
    SumOnSplit(cz, {n}, n);
    assert {m} - {m} == {} && {n} - {n} == {};
    assert cx.Keys == {m, n} && cy.Keys == {m} && cz.Keys == {n};
  }

  // ----- algebra of folds -----------------------------------------------------

  ghost predicate Sane(e: StatEntry) {
    NonNegative(e.clock)
  }

  lemma {:induction false} NewerAssociative(a: StatEntry, b: StatEntry, c: StatEntry)
    requires Sane(a) && Sane(b) && Sane(c)
    ensures Newer(Newer(a, b), c) == Newer(a, Newer(b, c))
  {
    NewerIsRankMax(a, b);
    NewerIsRankMax(b, c);
    NewerIsRankMax(a, c);
  }

  /** The accumulation `best = pickNewer(best, e)` that reads, scans and compactions run. */
  ghost function Fold(es: seq<StatEntry>): Option<StatEntry> {
    if es == [] then None else PickNewer(Fold(es[..|es| - 1]), Some(es[|es| - 1]))
  }

  ghost predicate AllSane(es: seq<StatEntry>) {
    forall e <- es :: Sane(e)
  }

  /** A fold yields a member that ranks at least as high as every other, and the first such. */
  lemma {:induction false} FoldIsFirstMax(es: seq<StatEntry>) returns (i: nat)
    requires es != [] && AllSane(es)
    ensures i < |es| && Fold(es) == Some(es[i])
    ensures forall j :: 0 <= j < |es| ==> AtLeast(es[i], es[j])
    ensures forall j :: 0 <= j < i ==> !AtLeast(es[j], es[i])
  {
    var last := |es| - 1;
    if last == 0 {
      assert es[..0] == [];
      i := 0;
    } else {
      var rest := es[..last];
      i := FoldIsFirstMax(rest);
      assert rest[i] == es[i];
      assert Sane(es[i]) && Sane(es[last]);
      NewerIsRankMax(es[i], es[last]);
      if !AtLeast(es[i], es[last]) { i := last; }
    }
  }

  /** Order and repetition do not matter: folds over the same entries have the same rank. */
  lemma {:induction false} FoldRankDependsOnSet(xs: seq<StatEntry>, ys: seq<StatEntry>)
    requires AllSane(xs) && AllSane(ys)
    requires forall e :: e in xs <==> e in ys
    ensures Fold(xs).None? <==> Fold(ys).None?
    ensures Fold(xs).Some? ==> SameRank(Fold(xs).value, Fold(ys).value)
  {
    assert xs == [] <==> ys == [] by {
      if xs != [] { assert xs[0] in ys; }
      if ys != [] { assert ys[0] in xs; }
    }
    if xs != [] {
      var i := FoldIsFirstMax(xs);
      var j := FoldIsFirstMax(ys);
      assert xs[i] in ys && ys[j] in xs;
    }
  }

  // ----- mergeClocks ----------------------------------------------------------

  /** Component-wise maximum, reading absent counters as zero. */
  ghost predicate IsJoin(out: Clock, a: Clock, b: Clock) {
    && out.Keys <= a.Keys + b.Keys
    && forall node <- a.Keys + b.Keys ::
         At(out, node) == if node in b && b[node] > At(a, node) then b[node] else At(a, node)
  }

  method MergeClocks(a: Clock, b: Clock) returns (out: Clock)
    ensures IsJoin(out, a, b)
  {
    out := a;
    var left := b.Keys;
    while left != {}
      invariant left <= b.Keys
      invariant out.Keys <= a.Keys + b.Keys
      invariant forall node <- a.Keys + b.Keys ::
        At(out, node) == if node !in left && node in b && b[node] > At(a, node) then b[node] else At(a, node)
      decreases |left|
    {
      var node :| node in left;
      left := left - {node};
      if b[node] > At(out, node) {
        out := out[node := b[node]];
      }
    }
  }

  /** The merged clock is the least clock that dominates both inputs. */
  lemma {:induction false} JoinIsLeastUpperBound(out: Clock, a: Clock, b: Clock, c: Clock)
    requires IsJoin(out, a, b)
    ensures Dominates(out, a) && Dominates(out, b)
    ensures NonNegative(c) ==> (Dominates(c, out) <==> Dominates(c, a) && Dominates(c, b))
  {}
}
