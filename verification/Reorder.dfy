/**
 The causal reorder buffer (processor/reorder.py). `pop_ready` sweeps the buffer until nothing
 more can be released; which order it sweeps in depends on the heap's layout, and the theorems
 show that the layout does not matter.
 */
module Reorder {
  import opened BigEndian
  import opened VectorClock

  /** A heap tuple; of the event only its clock matters here, and `counter` identifies it. */
  datatype Item = Item(sum: int, counter: nat, arrival: real, clock: Clock)

  /** Per node the highest sequence number released; absent means zero. */
  type Marks = Clock

  // ----- specification -------------------------------------------------------------------

  predicate Ready(marks: Marks, c: Clock) {
    forall node <- c.Keys :: c[node] <= At(marks, node) + 1
  }

  function Raised(marks: Marks, c: Clock): Marks {
    map node | node in marks.Keys + c.Keys && (node in marks || c[node] > 0) ::
      if node in c && c[node] > At(marks, node) then c[node] else At(marks, node)
  }

  predicate TimedOut(item: Item, now: real, timeout: real) {
    now - item.arrival >= timeout
  }

  predicate Eligible(marks: Marks, item: Item, now: real, timeout: real) {
    Ready(marks, item.clock) || TimedOut(item, now, timeout)
  }

  /** The watermarks after releasing some items in order. */
  function After(marks: Marks, items: seq<Item>): Marks {
    if items == [] then marks else Raised(After(marks, items[..|items| - 1]), items[|items| - 1].clock)
  }

  /** Each item may be released when its turn comes. */
  ghost predicate Chain(marks: Marks, items: seq<Item>, now: real, timeout: real) {
    forall i :: 0 <= i < |items| ==> Eligible(After(marks, items[..i]), items[i], now, timeout)
  }

  /** How many of them were released only because they had waited too long. */
  function Forced(marks: Marks, items: seq<Item>): nat {
    if items == [] then 0
    else
      var n := |items| - 1;
      Forced(marks, items[..n]) + if Ready(After(marks, items[..n]), items[n].clock) then 0 else 1
  }

  /** What one pass over a list releases, in its order. */
  function Swept(marks: Marks, items: seq<Item>, now: real, timeout: real): seq<Item> {
    if items == [] then []
    else
      var out, item := Swept(marks, items[..|items| - 1], now, timeout), items[|items| - 1];
      if Eligible(After(marks, out), item, now, timeout) then out + [item] else out
  }

  ghost predicate Stuck(marks: Marks, items: seq<Item>, now: real, timeout: real) {
    forall item <- items :: !Eligible(marks, item, now, timeout)
  }

  /** list.sort(key=_vc_sum): stable. */
  function Insert(item: Item, items: seq<Item>): seq<Item> {
    if items == [] || items[|items| - 1].sum <= item.sum then items + [item]
    else Insert(item, items[..|items| - 1]) + [items[|items| - 1]]
  }

  function SortBySum(items: seq<Item>): seq<Item> {
    if items == [] then [] else Insert(items[|items| - 1], SortBySum(items[..|items| - 1]))
  }

  // ----- watermarks -------------------------------------------------------------------------

  ghost predicate Leq(a: Marks, b: Marks) {
    forall node :: At(a, node) <= At(b, node)
  }

  lemma {:induction false} RaisedAt(marks: Marks, c: Clock, node: Bytes)
    ensures At(Raised(marks, c), node) == if node in c && c[node] > At(marks, node) then c[node] else At(marks, node)
  {}

  lemma {:induction false} EligibleMonotone(a: Marks, b: Marks, item: Item, now: real, timeout: real)
    requires Leq(a, b) && Eligible(a, item, now, timeout)
    ensures Eligible(b, item, now, timeout)
  {
    if Ready(a, item.clock) {
      forall node | node in item.clock ensures item.clock[node] <= At(b, node) + 1 {
        assert At(a, node) <= At(b, node);
      }
    }
  }

  /** Releasing items whose clocks a set of watermarks covers stays below those watermarks. */
  lemma {:induction false} AfterBelow(marks: Marks, items: seq<Item>, top: Marks)
    requires Leq(marks, top)
    requires forall item <- items :: Dominates(top, item.clock)
    ensures Leq(After(marks, items), top)
  {
    if items != [] {
      var n := |items| - 1;
      AfterBelow(marks, items[..n], top);
      assert items[n] in items;
      forall node ensures At(After(marks, items), node) <= At(top, node) {
        RaisedAt(After(marks, items[..n]), items[n].clock, node);
        assert At(After(marks, items[..n]), node) <= At(top, node);
      }
    }
  }

  lemma {:induction false} AfterCovers(marks: Marks, items: seq<Item>)
    ensures Leq(marks, After(marks, items))
    ensures forall item <- items :: Dominates(After(marks, items), item.clock)
  {
    if items != [] {
      var n := |items| - 1;
      AfterCovers(marks, items[..n]);
      var m := After(marks, items[..n]);
      forall node ensures At(m, node) <= At(Raised(m, items[n].clock), node) {
        RaisedAt(m, items[n].clock, node);
      }
      forall item | item in items ensures Dominates(After(marks, items), item.clock) {
        RaisedDominates(m, items[n].clock, item.clock);
        assert item == items[n] || item in items[..n];
      }
    }
  }

  lemma {:induction false} RaisedDominates(m: Marks, c: Clock, d: Clock)
    ensures Dominates(Raised(m, c), c)
    ensures Dominates(m, d) ==> Dominates(Raised(m, c), d)
  {
    forall node ensures At(m, node) <= At(Raised(m, c), node) && (node in c ==> c[node] <= At(Raised(m, c), node)) {
      RaisedAt(m, c, node);
    }
  }

  // ----- confluence ---------------------------------------------------------------------------

  lemma {:induction false} InOrRest(x: Item, chain: seq<Item>, rest: seq<Item>, all: multiset<Item>)
    requires multiset(chain) + multiset(rest) == all
    ensures x in all <==> x in chain || x in rest
  {
    assert x in chain <==> x in multiset(chain);
    assert x in rest <==> x in multiset(rest);
  }

  ghost predicate Apart(a: seq<Item>, b: seq<Item>) {
    forall x <- a :: x !in b
  }

  ghost predicate Within(a: seq<Item>, b: seq<Item>, c: seq<Item>) {
    forall x <- a :: x in b || x in c
  }

  lemma {:induction false} ChainInit(marks: Marks, c: seq<Item>, now: real, timeout: real)
    requires c != [] && Chain(marks, c, now, timeout)
    ensures var n := |c| - 1; Chain(marks, c[..n], now, timeout) && Eligible(After(marks, c[..n]), c[n], now, timeout)
  {
    hide After, Eligible;
    var n := |c| - 1;
    forall i | 0 <= i < n ensures Eligible(After(marks, c[..n][..i]), c[..n][i], now, timeout) {
      assert c[..n][..i] == c[..i];
    }
  }

  lemma {:induction false} SnocApart(c: seq<Item>, k: seq<Item>)
    requires c != [] && Apart(c[..|c| - 1], k) && c[|c| - 1] !in k
    ensures Apart(c, k)
  {
    forall x | x in c ensures x !in k {
      assert x == c[|c| - 1] || x in c[..|c| - 1];
    }
  }

  /** Whatever one schedule releases, the other cannot have held back. */
  lemma {:induction false} NotHeldBack(marks: Marks, c1: seq<Item>, c2: seq<Item>, k2: seq<Item>, now: real, timeout: real)
    requires Within(c1, c2, k2)
    requires Chain(marks, c1, now, timeout) && Stuck(After(marks, c2), k2, now, timeout)
    ensures Apart(c1, k2)
  {
    if c1 != [] {
      hide After, Chain, Eligible, Leq, Dominates, Apart, Within;
      var n := |c1| - 1;
      var init := c1[..n];
      ChainInit(marks, c1, now, timeout);
      WithinInit(c1, c2, k2);
      NotHeldBack(marks, init, c2, k2, now, timeout);
      AfterCovers(marks, c2);
      ApartWithin(init, c2, k2);
      AfterBelow(marks, init, After(marks, c2));
      EligibleMonotone(After(marks, init), After(marks, c2), c1[n], now, timeout);
      SnocApart(c1, k2);
    }
  }

  lemma {:induction false} WithinInit(a: seq<Item>, b: seq<Item>, c: seq<Item>)
    requires a != [] && Within(a, b, c)
    ensures Within(a[..|a| - 1], b, c)
  {}

  lemma {:induction false} ApartWithin(a: seq<Item>, b: seq<Item>, c: seq<Item>)
    requires Within(a, b, c) && Apart(a, c)
    ensures forall x <- a :: x in b
  {}

  /** Order independence: any two schedules that release eligible items of the same buffer one
      by one until they are stuck release the same items, hold back the same items and end
      with the same watermarks. */
  lemma {:induction false} Confluence(marks: Marks, c1: seq<Item>, k1: seq<Item>, c2: seq<Item>, k2: seq<Item>, now: real, timeout: real)
    requires multiset(c1) + multiset(k1) == multiset(c2) + multiset(k2)
    requires Chain(marks, c1, now, timeout) && Stuck(After(marks, c1), k1, now, timeout)
    requires Chain(marks, c2, now, timeout) && Stuck(After(marks, c2), k2, now, timeout)
    ensures multiset(c1) == multiset(c2) && multiset(k1) == multiset(k2)
    ensures forall node :: At(After(marks, c1), node) == At(After(marks, c2), node)
  {
    hide After, Chain, Stuck, Leq;
    var all := multiset(c1) + multiset(k1);
    forall x: Item ensures (x in c1 ==> x in c2 || x in k2) && (x in c2 ==> x in c1 || x in k1) {
      InOrRest(x, c1, k1, all);
      InOrRest(x, c2, k2, all);
    }
    NotHeldBack(marks, c1, c2, k2, now, timeout);
    NotHeldBack(marks, c2, c1, k1, now, timeout);
    forall x ensures multiset(c1)[x] == multiset(c2)[x] {
      SameCount(x, c1, k1, c2, k2);
    }
    assert multiset(c1) == multiset(c2);
    assert multiset(k1) == all - multiset(c1) && multiset(k2) == all - multiset(c2);
    SameMarks(marks, c1, c2);
    SameMarks(marks, c2, c1);
    LeqBoth(After(marks, c1), After(marks, c2));
  }

  lemma {:induction false} LeqBoth(a: Marks, b: Marks)
    requires Leq(a, b) && Leq(b, a)
    ensures forall node :: At(a, node) == At(b, node)
  {
    forall node ensures At(a, node) == At(b, node) {
      assert At(a, node) <= At(b, node) && At(b, node) <= At(a, node);
    }
  }

  lemma {:induction false} SameCount(x: Item, c1: seq<Item>, k1: seq<Item>, c2: seq<Item>, k2: seq<Item>)
    requires multiset(c1) + multiset(k1) == multiset(c2) + multiset(k2)
    requires (x in c1 ==> x !in k2) && (x in c2 ==> x !in k1)
    ensures multiset(c1)[x] == multiset(c2)[x]
  {
    assert (multiset(c1) + multiset(k1))[x] == (multiset(c2) + multiset(k2))[x];
    assert x in c1 <==> x in multiset(c1);
    assert x in c2 <==> x in multiset(c2);
    assert x in k1 <==> x in multiset(k1);
    assert x in k2 <==> x in multiset(k2);
  }

  lemma {:induction false} SameMarks(marks: Marks, c1: seq<Item>, c2: seq<Item>)
    requires multiset(c1) == multiset(c2)
    ensures Leq(After(marks, c1), After(marks, c2))
  {
    hide After, Leq, Dominates;
    AfterCovers(marks, c2);
    forall x | x in c1 ensures x in c2 {
      assert x in multiset(c1) && x in multiset(c2);
    }
    AfterBelow(marks, c1, After(marks, c2));
  }

  // ----- sorting -------------------------------------------------------------------------------

  ghost predicate Sorted(items: seq<Item>) {
    forall i, j :: 0 <= i < j < |items| ==> items[i].sum <= items[j].sum
  }

  lemma {:induction false} InsertMembers(item: Item, items: seq<Item>)
    ensures forall x <- Insert(item, items) :: x == item || x in items
  {
    if items != [] && items[|items| - 1].sum > item.sum { InsertMembers(item, items[..|items| - 1]); }
  }

  lemma {:induction false} InsertCounts(item: Item, items: seq<Item>)
    ensures multiset(Insert(item, items)) == multiset(items) + multiset{item}
  {
    if items != [] && items[|items| - 1].sum > item.sum {
      var n := |items| - 1;
      InsertCounts(item, items[..n]);
      assert items == items[..n] + [items[n]];
    }
  }

  lemma {:induction false} SortedSnoc(items: seq<Item>, item: Item)
    requires Sorted(items) && forall x <- items :: x.sum <= item.sum
    ensures Sorted(items + [item])
  {}

  lemma {:induction false} InsertSorted(item: Item, items: seq<Item>)
    requires Sorted(items)
    ensures Sorted(Insert(item, items))
  {
    if items == [] || items[|items| - 1].sum <= item.sum {
      SortedSnoc(items, item);
    } else {
      var n := |items| - 1;
      var init := items[..n];
      InsertSorted(item, init);
      InsertMembers(item, init);
      hide Insert;
      forall x | x in Insert(item, init) ensures x.sum <= items[n].sum {
        assert x == item || x in init;
      }
      SortedSnoc(Insert(item, init), items[n]);
      assert Insert(item, items) == Insert(item, init) + [items[n]] by { InsertStep(item, items); }
    }
  }

  lemma {:induction false} InsertStep(item: Item, items: seq<Item>)
    requires items != [] && items[|items| - 1].sum > item.sum
    ensures Insert(item, items) == Insert(item, items[..|items| - 1]) + [items[|items| - 1]]
  {}

  lemma {:induction false} SortIsSorted(items: seq<Item>)
    ensures Sorted(SortBySum(items))
  {
    if items == [] {
      assert SortBySum(items) == [];
    } else {
      hide Insert, Sorted;
      SortIsSorted(items[..|items| - 1]);
      InsertSorted(items[|items| - 1], SortBySum(items[..|items| - 1]));
    }
  }

  lemma {:induction false} SnocCounts(items: seq<Item>)
    requires items != []
    ensures multiset(items) == multiset(items[..|items| - 1]) + multiset{items[|items| - 1]}
  {
    assert items == items[..|items| - 1] + [items[|items| - 1]];
  }

  lemma {:induction false} SortProps(items: seq<Item>)
    ensures Sorted(SortBySum(items)) && multiset(SortBySum(items)) == multiset(items)
  {
    SortIsSorted(items);
    if items != [] {
      hide Insert, Sorted;
      SortProps(items[..|items| - 1]);
      InsertCounts(items[|items| - 1], SortBySum(items[..|items| - 1]));
      SnocCounts(items);
    }
  }

  ghost predicate HappenedBefore(a: Clock, b: Clock) {
    (forall node :: At(a, node) <= At(b, node)) && exists node :: At(a, node) < At(b, node)
  }

  ghost predicate Summed(items: seq<Item>) {
    forall item <- items :: item.sum == Sum(item.clock)
  }

  /** A returned batch is a linear extension of the vector-clock order: no event is preceded by
      one that happened after it. */
  lemma {:induction false} BatchIsLinearExtension(chain: seq<Item>, i: nat, j: nat)
    requires Summed(chain)
    requires i < j < |SortBySum(chain)|
    ensures !HappenedBefore(SortBySum(chain)[j].clock, SortBySum(chain)[i].clock)
  {
    SortProps(chain);
    var out := SortBySum(chain);
    var a, b := out[j], out[i];
    assert a in multiset(out) && b in multiset(out);
    assert a in multiset(chain) && b in multiset(chain);
    if HappenedBefore(a.clock, b.clock) {
      var node :| At(a.clock, node) < At(b.clock, node);
      SumStrict(a.clock, b.clock, node);
    }
  }

  // ----- one call of pop_ready -------------------------------------------------------------------

  /** The buffer, and everything it has returned so far. */
  datatype Buffer = Buffer(heap: seq<Item>, marks: Marks, forced: nat, output: seq<Item>)

  /** What pop_ready does, for some schedule `chain` of the released items. */
  ghost predicate PopStep(s: Buffer, s': Buffer, now: real, timeout: real, chain: seq<Item>) {
    && multiset(chain) + multiset(s'.heap) == multiset(s.heap)
    && Chain(s.marks, chain, now, timeout) && s'.marks == After(s.marks, chain)
    && Stuck(s'.marks, s'.heap, now, timeout)
    && s'.forced == s.forced + Forced(s.marks, chain)
    && s'.output == s.output + SortBySum(chain)
  }

  ghost predicate PushStep(s: Buffer, s': Buffer, item: Item) {
    && multiset(s'.heap) == multiset(s.heap) + multiset{item}
    && s'.marks == s.marks && s'.forced == s.forced && s'.output == s.output
  }

  /** The layout of the heap does not matter: buffers holding the same items, in any
      arrangement, release the same items and end with the same watermarks. */
  lemma {:induction false} PopIgnoresLayout(s: Buffer, s': Buffer, t: Buffer, t': Buffer, now: real, timeout: real, c: seq<Item>, d: seq<Item>)
    requires multiset(s.heap) == multiset(t.heap) && s.marks == t.marks
    requires PopStep(s, s', now, timeout, c) && PopStep(t, t', now, timeout, d)
    ensures multiset(s'.heap) == multiset(t'.heap) && multiset(c) == multiset(d)
    ensures forall node :: At(s'.marks, node) == At(t'.marks, node)
  {
    hide Chain, Stuck, After, SortBySum, Forced;
    Confluence(s.marks, c, s'.heap, d, t'.heap, now, timeout);
  }

  lemma {:induction false} SweptNothing(marks: Marks, now: real, timeout: real)
    ensures Swept(marks, [], now, timeout) == []
  {}

  lemma {:induction false} SweptSnoc(marks: Marks, items: seq<Item>, item: Item, now: real, timeout: real)
    ensures Swept(marks, items + [item], now, timeout) ==
      var out := Swept(marks, items, now, timeout);
      if Eligible(After(marks, out), item, now, timeout) then out + [item] else out
  {
    assert (items + [item])[..|items|] == items;
  }

  // ----- forced releases -----------------------------------------------------------------------

  /** heapq's order: parents before children by (sum, counter). */
  ghost predicate IsHeap(items: seq<Item>) {
    forall i, p :: 0 < i < |items| && p == (i - 1) / 2 ==> HeapLeq(items[p], items[i])
  }

  predicate HeapLeq(a: Item, b: Item) {
    a.sum < b.sum || (a.sum == b.sum && a.counter <= b.counter)
  }

  /** A pass over overdue items releases them all, in their order. */
  lemma {:induction false} SweptOverdue(marks: Marks, items: seq<Item>, now: real, timeout: real)
    requires forall item <- items :: TimedOut(item, now, timeout)
    ensures Swept(marks, items, now, timeout) == items
  {
    if items != [] {
      hide Swept;
      var n := |items| - 1;
      SweptOverdue(marks, items[..n], now, timeout);
      assert items == items[..n] + [items[n]] && items[n] in items;
      SweptSnoc(marks, items[..n], items[n], now, timeout);
    }
  }

  /** The `forced` counter is the one thing the layout decides: below an overdue event `x` of
      another node, the overdue events 1 and 2 of a node may lie in either order, and the pass
      over one heap counts no forced release, the pass over the other counts one. */
  lemma {:induction false} ForcedDependsOnLayout(node: Bytes, other: Bytes, now: real)
    requires node != other
    ensures var x, a, b := Late(0, other, 1, now), Late(1, node, 1, now), Late(2, node, 2, now);
      && IsHeap([x, a, b]) && IsHeap([x, b, a])
      && Swept(map[], [x, a, b], now, 30.0) == [x, a, b] && Forced(map[], [x, a, b]) == 0
      && Swept(map[], [x, b, a], now, 30.0) == [x, b, a] && Forced(map[], [x, b, a]) == 1
  {
    var x, a, b := Late(0, other, 1, now), Late(1, node, 1, now), Late(2, node, 2, now);
    SweptOverdue(map[], [x, a, b], now, 30.0);
    SweptOverdue(map[], [x, b, a], now, 30.0);
    ThreeHeap(x, a, b);
    ThreeHeap(x, b, a);
    hide Swept, IsHeap, Forced;
    ForcedOfThree(x, a, b, other, node, now);
  }

  lemma {:induction false} ThreeHeap(x: Item, y: Item, z: Item)
    requires HeapLeq(x, y) && HeapLeq(x, z)
    ensures IsHeap([x, y, z])
  {}

  lemma {:induction false} ForcedOfThree(x: Item, a: Item, b: Item, other: Bytes, node: Bytes, now: real)
    requires node != other && x.clock == map[other := 1] && a.clock == map[node := 1] && b.clock == map[node := 2]
    ensures Forced(map[], [x, a, b]) == 0 && Forced(map[], [x, b, a]) == 1
  {
    hide After, Forced, Ready;
    NothingReleased(map[], now, 30.0);
    ForcedStep(map[], [], x, other, 1);
    MarksOf(map[], [], x, other, 1, node);
    assert [] + [x] == [x];
    ForcedStep(map[], [x], a, node, 1);
    MarksOf(map[], [x], a, node, 1, node);
    ForcedStep(map[], [x], b, node, 2);
    MarksOf(map[], [x], b, node, 2, node);
    assert [x] + [a] == [x, a] && [x] + [b] == [x, b];
    ForcedStep(map[], [x, a], b, node, 2);
    ForcedStep(map[], [x, b], a, node, 1);
    assert [x, a] + [b] == [x, a, b] && [x, b] + [a] == [x, b, a];
  }

  /** An event that has waited the whole timeout. */
  function Late(counter: nat, node: Bytes, q: int, now: real): Item {
    Item(q, counter, now - 30.0, map[node := q])
  }

  lemma {:induction false} ForcedStep(marks: Marks, c: seq<Item>, x: Item, node: Bytes, q: int)
    requires x.clock == map[node := q]
    ensures Forced(marks, c + [x]) == Forced(marks, c) + if q <= At(After(marks, c), node) + 1 then 0 else 1
  {
    assert (c + [x])[..|c|] == c;
    ReadyIff(After(marks, c), node, q);
  }

  lemma {:induction false} MarksOf(marks: Marks, c: seq<Item>, x: Item, node: Bytes, q: int, n: Bytes)
    requires x.clock == map[node := q]
    ensures At(After(marks, c + [x]), n) ==
      if n == node && q > At(After(marks, c), n) then q else At(After(marks, c), n)
  {
    assert (c + [x])[..|c|] == c;
    RaisedAt(After(marks, c), x.clock, n);
  }

  /** A complete schedule of a buffer: a legal order of releases after which nothing is left
      that could be released. */
  ghost predicate Schedule(marks: Marks, buffer: seq<Item>, c: seq<Item>, rest: seq<Item>, now: real, timeout: real) {
    && multiset(c) + multiset(rest) == multiset(buffer)
    && Chain(marks, c, now, timeout) && Stuck(After(marks, c), rest, now, timeout)
  }

  ghost predicate NeverForces(marks: Marks, buffer: seq<Item>, now: real, timeout: real) {
    forall c, rest :: Schedule(marks, buffer, c, rest, now, timeout) ==> Forced(marks, c) == 0
  }

  lemma {:induction false} ForcedNothing(marks: Marks, c: seq<Item>, now: real, timeout: real)
    requires Chain(marks, c, now, timeout)
    requires forall x <- c :: TimedOut(x, now, timeout) ==> Ready(marks, x.clock)
    ensures Forced(marks, c) == 0
  {
    if c != [] {
      var n := |c| - 1;
      ChainInit(marks, c, now, timeout);
      assert forall x <- c[..n] :: x in c;
      hide Chain, Ready, TimedOut;
      ForcedNothing(marks, c[..n], now, timeout);
      assert c[n] in c;
      AfterCovers(marks, c[..n]);
      if TimedOut(c[n], now, timeout) { ReadyMonotone(marks, After(marks, c[..n]), c[n].clock); }
    }
  }

  lemma {:induction false} ReadyMonotone(a: Marks, b: Marks, c: Clock)
    requires Leq(a, b) && Ready(a, c)
    ensures Ready(b, c)
  {
    forall node | node in c ensures c[node] <= At(b, node) + 1 {
      assert At(a, node) <= At(b, node);
    }
  }

  lemma {:induction false} ForcedGrows(marks: Marks, c: seq<Item>, d: seq<Item>, now: real, timeout: real)
    requires Chain(marks, c, now, timeout) && Chain(After(marks, c), d, now, timeout)
    ensures Forced(marks, c) <= Forced(marks, c + d)
  {
    ChainConcat(marks, c, d, now, timeout);
  }

  /** Any legal start can be completed. */
  lemma {:induction false} Complete(marks: Marks, c: seq<Item>, rest: seq<Item>, now: real, timeout: real)
    returns (c': seq<Item>, rest': seq<Item>)
    requires Chain(marks, c, now, timeout)
    ensures c <= c' && multiset(c') + multiset(rest') == multiset(c) + multiset(rest)
    ensures Chain(marks, c', now, timeout) && Stuck(After(marks, c'), rest', now, timeout)
    ensures Forced(marks, c) <= Forced(marks, c')
    decreases |rest|
  {
    hide Chain, After, Forced, Eligible;
    c', rest' := c, rest;
    if !Stuck(After(marks, c), rest, now, timeout) {
      var item :| item in rest && Eligible(After(marks, c), item, now, timeout);
      var i :| 0 <= i < |rest| && rest[i] == item;
      ChainSnoc(marks, c, item, now, timeout);
      TakenOut(c, rest, i);
      c', rest' := Complete(marks, c + [item], rest[..i] + rest[i + 1..], now, timeout);
    }
  }

  lemma {:induction false} TakenOut(c: seq<Item>, rest: seq<Item>, i: nat)
    requires i < |rest|
    ensures multiset(c + [rest[i]]) + multiset(rest[..i] + rest[i + 1..]) == multiset(c) + multiset(rest)
  {
    assert rest == rest[..i] + [rest[i]] + rest[i + 1..];
  }

  /** Exactly when the count of forced releases is certain to be zero, whatever order the buffer
      is swept in: every overdue event is ready before anything is released. */
  lemma {:induction false} NothingForcedIff(marks: Marks, buffer: seq<Item>, now: real, timeout: real)
    ensures NeverForces(marks, buffer, now, timeout) <==>
      forall x <- buffer :: TimedOut(x, now, timeout) ==> Ready(marks, x.clock)
  {
    hide Chain, After, Forced, Ready, TimedOut, Stuck;
    if forall x <- buffer :: TimedOut(x, now, timeout) ==> Ready(marks, x.clock) {
      forall c, rest | Schedule(marks, buffer, c, rest, now, timeout) ensures Forced(marks, c) == 0 {
        forall x | x in c ensures x in buffer { assert x in multiset(c) && x in multiset(buffer); }
        ForcedNothing(marks, c, now, timeout);
      }
    } else {
      var x :| x in buffer && TimedOut(x, now, timeout) && !Ready(marks, x.clock);
      var i :| 0 <= i < |buffer| && buffer[i] == x;
      NothingReleased(marks, now, timeout);
      ChainSnoc(marks, [], x, now, timeout);
      TakenOut([], buffer, i);
      var c, rest := Complete(marks, [] + [x], buffer[..i] + buffer[i + 1..], now, timeout);
      assert Schedule(marks, buffer, c, rest, now, timeout);
    }
  }

  lemma {:induction false} ReadyIff(marks: Marks, node: Bytes, q: int)
    ensures Ready(marks, map[node := q]) <==> q <= At(marks, node) + 1
  {}

  lemma {:induction false} ChainSnoc(marks: Marks, c: seq<Item>, x: Item, now: real, timeout: real)
    requires Chain(marks, c, now, timeout) && Eligible(After(marks, c), x, now, timeout)
    ensures Chain(marks, c + [x], now, timeout)
    ensures After(marks, c + [x]) == Raised(After(marks, c), x.clock)
    ensures Forced(marks, c + [x]) == Forced(marks, c) + if Ready(After(marks, c), x.clock) then 0 else 1
  {
    hide Eligible, Ready, Raised;
    var d := c + [x];
    assert d[..|c|] == c;
    forall i | 0 <= i < |d| ensures Eligible(After(marks, d[..i]), d[i], now, timeout) {
      if i < |c| { assert d[..i] == c[..i]; }
    }
  }

  lemma {:induction false} ChainConcat(marks: Marks, c: seq<Item>, d: seq<Item>, now: real, timeout: real)
    requires Chain(marks, c, now, timeout) && Chain(After(marks, c), d, now, timeout)
    ensures Chain(marks, c + d, now, timeout)
    ensures After(marks, c + d) == After(After(marks, c), d)
    ensures Forced(marks, c + d) == Forced(marks, c) + Forced(After(marks, c), d)
  {
    hide Chain, After, Forced, Eligible, Ready, Raised;
    if d == [] {
      assert c + d == c;
      NothingReleased(After(marks, c), now, timeout);
    } else {
      var n := |d| - 1;
      ChainInit(After(marks, c), d, now, timeout);
      ChainConcat(marks, c, d[..n], now, timeout);
      ChainSnoc(After(marks, c), d[..n], d[n], now, timeout);
      assert d[..n] + [d[n]] == d;
      ChainSnoc(marks, c + d[..n], d[n], now, timeout);
      assert c + d[..n] + [d[n]] == c + d;
    }
  }

  // ----- the loops ------------------------------------------------------------------------------------

  method IsReady(marks: Marks, c: Clock) returns (ready: bool)
    ensures ready == Ready(marks, c)
  {
    var left := c.Keys;
    while left != {}
      invariant left <= c.Keys
      invariant forall node <- c.Keys - left :: c[node] <= At(marks, node) + 1
      decreases |left|
    {
      var node :| node in left;
      if c[node] > At(marks, node) + 1 { return false; }
      left := left - {node};
    }
    return true;
  }

  method Deliver(marks: Marks, c: Clock) returns (raised: Marks)
    ensures raised == Raised(marks, c)
  {
    raised := marks;
    var left := c.Keys;
    NoneRaised(marks, c);
    hide Raised;
    while left != {}
      invariant left <= c.Keys && raised == Raised(marks, c - left)
      decreases |left|
    {
      var node :| node in left;
      RaisedStep(marks, c, left, node);
      left := left - {node};
      if c[node] > At(raised, node) { raised := raised[node := c[node]]; }
    }
    assert c - {} == c;
  }

  lemma {:induction false} NoneRaised(marks: Marks, c: Clock)
    ensures Raised(marks, c - c.Keys) == marks
  {}

  lemma {:induction false} RaisedStep(marks: Marks, c: Clock, left: set<Bytes>, node: Bytes)
    requires node in left && node in c
    ensures var m := Raised(marks, c - left);
      Raised(marks, c - (left - {node})) == if c[node] > At(m, node) then m[node := c[node]] else m
  {
    RaisedAt(marks, c - left, node);
  }

  /** One pass over the heap. */
  method Sweep(heap: seq<Item>, marks: Marks, now: real, timeout: real)
    returns (keep: seq<Item>, out: seq<Item>, marks': Marks, forced: nat)
    ensures multiset(out) + multiset(keep) == multiset(heap) && out == Swept(marks, heap, now, timeout)
    ensures Chain(marks, out, now, timeout) && marks' == After(marks, out) && forced == Forced(marks, out)
    ensures out == [] ==> Stuck(marks, keep, now, timeout)
  {
    hide Chain, After, Ready, Forced, Raised, Swept;
    SweptNothing(marks, now, timeout);
    assert heap[..0] == [];
    keep, out, marks', forced := [], [], marks, 0;
    NothingReleased(marks, now, timeout);
    var i := 0;
    while i < |heap|
      invariant 0 <= i <= |heap| && multiset(out) + multiset(keep) == multiset(heap[..i])
      invariant out == Swept(marks, heap[..i], now, timeout)
      invariant Chain(marks, out, now, timeout) && marks' == After(marks, out) && forced == Forced(marks, out)
      invariant out == [] ==> Stuck(marks, keep, now, timeout)
    {
      var item := heap[i];
      assert heap[..i + 1] == heap[..i] + [item];
      SweptSnoc(marks, heap[..i], item, now, timeout);
      var ready := IsReady(marks', item.clock);
      if ready || now - item.arrival >= timeout {
        ChainSnoc(marks, out, item, now, timeout);
        marks' := Deliver(marks', item.clock);
        out := out + [item];
        if !ready { forced := forced + 1; }
      } else {
        keep := keep + [item];
        NothingReleased(marks, now, timeout);
      }
      i := i + 1;
    }
    assert heap[..i] == heap;
  }

  lemma {:induction false} NothingReleased(marks: Marks, now: real, timeout: real)
    ensures Chain(marks, [], now, timeout) && After(marks, []) == marks && Forced(marks, []) == 0
  {}

  /** Sweep until a pass releases nothing. Every other pass shrinks the heap, so this ends. */
  method Drain(heap: seq<Item>, marks: Marks, now: real, timeout: real)
    returns (rest: seq<Item>, chain: seq<Item>, marks': Marks, forced: nat)
    ensures multiset(chain) + multiset(rest) == multiset(heap)
    ensures Chain(marks, chain, now, timeout) && marks' == After(marks, chain) && forced == Forced(marks, chain)
    ensures Stuck(marks', rest, now, timeout)
  {
    hide Chain, After, Forced, Eligible;
    rest, chain, marks', forced := heap, [], marks, 0;
    NothingReleased(marks, now, timeout);
    var progressed := true;
    while progressed && rest != []
      invariant multiset(chain) + multiset(rest) == multiset(heap)
      invariant Chain(marks, chain, now, timeout) && marks' == After(marks, chain) && forced == Forced(marks, chain)
      invariant !progressed ==> Stuck(marks', rest, now, timeout)
      decreases |rest|, progressed
    {
      var keep, out, m, f := Sweep(rest, marks', now, timeout);
      NothingReleased(marks', now, timeout);
      ChainConcat(marks, chain, out, now, timeout);
      assert |multiset(out) + multiset(keep)| == |out| + |keep| && |multiset(rest)| == |rest|;
      rest, chain, marks', forced := keep, chain + out, m, forced + f;
      progressed := out != [];
    }
  }

  ghost predicate OneEach(pushed: multiset<Item>, counter: nat) {
    forall x <- pushed :: x.counter < counter && pushed[x] == 1
  }

  class ReorderBuffer {
    const timeout: real
    var heap: seq<Item>
    var counter: nat
    var delivered: Marks
    var forced: nat
    /** Everything ever pushed, and everything ever returned. */
    ghost var pushed: multiset<Item>
    ghost var output: seq<Item>

    /** Every pushed item is either still held or was returned, and there is just one of it. */
    ghost predicate Valid()
      reads this
    {
      && pushed == multiset(heap) + multiset(output)
      && Summed(heap)
      && OneEach(pushed, counter)
    }

    ghost function State(): Buffer
      reads this
    {
      Buffer(heap, delivered, forced, output)
    }

    constructor (timeout: real)
      ensures Valid() && this.timeout == timeout && State() == Buffer([], map[], 0, []) && pushed == multiset{}
    {
      this.timeout := timeout;
      heap, counter, delivered, forced := [], 0, map[], 0;
      pushed, output := multiset{}, [];
    }

    /** heappush; the layout chosen here is as good as any. */
    method Push(clock: Clock, now: real)
      requires Valid()
      modifies this
      ensures Valid() && counter == old(counter) + 1
      ensures var item := Item(Sum(clock), old(counter), now, clock);
        PushStep(old(State()), State(), item) && pushed == old(pushed) + multiset{item}
    {
      var sum := VcSum(clock);
      var item := Item(sum, counter, now, clock);
      heap := heap + [item];
      counter := counter + 1;
      pushed := pushed + multiset{item};
    }

    method PopReady(now: real) returns (out: seq<Item>, ghost chain: seq<Item>)
      requires Valid()
      modifies this
      ensures Valid() && pushed == old(pushed)
      ensures PopStep(old(State()), State(), now, timeout, chain) && out == SortBySum(chain)
      ensures forall i, j :: 0 <= i < j < |out| ==> !HappenedBefore(out[j].clock, out[i].clock)
      ensures forall x <- heap :: now - x.arrival < timeout && !Ready(delivered, x.clock)
    {
      hide Chain, Stuck, After, Forced, SortBySum, HappenedBefore, Summed, Sorted, OneEach, Ready;
      var rest, released, m, f := Drain(heap, delivered, now, timeout);
      chain := released;
      SortProps(released);
      StillSummed(heap, released, rest);
      out := SortBySum(released);
      NoneOverdue(m, rest, now, timeout);
      heap, delivered, forced, output := rest, m, forced + f, output + out;
      forall i, j | 0 <= i < j < |out| ensures !HappenedBefore(out[j].clock, out[i].clock) {
        BatchIsLinearExtension(released, i, j);
      }
    }
  }

  lemma {:induction false} NoneOverdue(marks: Marks, items: seq<Item>, now: real, timeout: real)
    requires Stuck(marks, items, now, timeout)
    ensures forall x <- items :: now - x.arrival < timeout && !Ready(marks, x.clock)
  {}

  lemma {:induction false} StillSummed(heap: seq<Item>, released: seq<Item>, rest: seq<Item>)
    requires Summed(heap) && multiset(released) + multiset(rest) == multiset(heap)
    ensures Summed(released) && Summed(rest)
  {
    forall x | x in released || x in rest ensures x in heap {
      assert x in multiset(released) || x in multiset(rest);
      assert x in multiset(heap);
    }
  }
}
