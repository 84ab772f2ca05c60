/**
 The stream guarantee of the reorder buffer: events with single-component clocks and distinct
 sequence numbers come out of it, per node, as exactly 1, 2, 3, ..., as long as no release had to
 be forced; batches, arrival order and heap layout do not matter.
 */
module ReorderInOrder {
  import opened BigEndian
  import opened VectorClock
  import opened Reorder

  /** Event number `item.sum` of `node`. */
  ghost predicate From(item: Item, node: Bytes) {
    item.clock == map[node := item.sum] && item.sum >= 1
  }

  ghost predicate Single(item: Item) {
    exists node :: From(item, node)
  }

  ghost predicate AllSingle(items: seq<Item>) {
    forall item <- items :: Single(item)
  }

  /** The sequence numbers of one node's events, in order. */
  function SeqsOf(items: seq<Item>, node: Bytes): seq<int> {
    if items == [] then []
    else
      var rest, last := SeqsOf(items[..|items| - 1], node), items[|items| - 1];
      if node in last.clock then rest + [last.clock[node]] else rest
  }

  /** a + 1, ..., b */
  function Range(a: int, b: int): seq<int>
    decreases b - a
  {
    if b <= a then [] else Range(a, b - 1) + [b]
  }

  lemma {:induction false} RangeMembers(a: int, b: int, q: int)
    ensures q in Range(a, b) <==> a < q <= b
    decreases b - a
  {
    if a < b { RangeMembers(a, b - 1, q); }
  }

  lemma {:induction false} RangeConcat(a: int, b: int, c: int)
    requires a <= b <= c
    ensures Range(a, b) + Range(b, c) == Range(a, c)
    decreases c - b
  {
    hide Range;
    if b < c {
      RangeConcat(a, b, c - 1);
      RangeSnoc(a, c - 1);
      RangeSnoc(b, c - 1);
    } else {
      RangeLength(b, b);
    }
  }

  lemma {:induction false} SeqsConcat(a: seq<Item>, b: seq<Item>, node: Bytes)
    ensures SeqsOf(a + b, node) == SeqsOf(a, node) + SeqsOf(b, node)
  {
    if b == [] {
      assert a + b == a;
    } else {
      var n := |b| - 1;
      SeqsConcat(a, b[..n], node);
      assert (a + b)[..|a + b| - 1] == a + b[..n];
    }
  }

  lemma {:induction false} SeqsSnoc(a: seq<Item>, x: Item, node: Bytes)
    ensures SeqsOf(a + [x], node) == SeqsOf(a, node) + if node in x.clock then [x.clock[node]] else []
  {
    assert (a + [x])[..|a|] == a;
  }

  lemma {:induction false} SeqsMember(items: seq<Item>, node: Bytes, q: int) returns (i: nat)
    requires q in SeqsOf(items, node)
    ensures i < |items| && node in items[i].clock && items[i].clock[node] == q
  {
    var n := |items| - 1;
    if node in items[n].clock && items[n].clock[node] == q {
      i := n;
    } else {
      i := SeqsMember(items[..n], node, q);
    }
  }

  lemma {:induction false} MemberSeqs(items: seq<Item>, node: Bytes, i: nat)
    requires i < |items| && node in items[i].clock
    ensures items[i].clock[node] in SeqsOf(items, node)
  {
    var n := |items| - 1;
    if i < n { MemberSeqs(items[..n], node, i); }
  }

  // ----- sorting keeps each node's order ---------------------------------------------------

  /** Items of one node are in increasing order of their sums. */
  ghost predicate NodeSorted(items: seq<Item>, node: Bytes) {
    forall i, j :: 0 <= i < j < |items| && node in items[i].clock && node in items[j].clock ==> items[i].sum <= items[j].sum
  }

  lemma {:induction false} InsertKeepsNode(x: Item, items: seq<Item>, node: Bytes)
    requires node in x.clock ==> forall y <- items :: node in y.clock ==> y.sum <= x.sum
    ensures SeqsOf(Insert(x, items), node) == SeqsOf(items + [x], node)
  {
    if items != [] && items[|items| - 1].sum > x.sum {
      hide SeqsOf, Insert;
      InsertStep(x, items);
      var n := |items| - 1;
      var init, last := items[..n], items[n];
      InsertKeepsNode(x, init, node);
      SeqsSnoc(Insert(x, init), last, node);
      SeqsSnoc(init, x, node);
      SeqsSnoc(items, x, node);
      assert items == init + [last];
      SeqsSnoc(init, last, node);
      assert last in items;
    }
  }

  lemma {:induction false} SortMembers(items: seq<Item>)
    ensures forall y <- SortBySum(items) :: y in items
  {
    hide SortBySum;
    SortProps(items);
    forall y | y in SortBySum(items) ensures y in items {
      assert y in multiset(SortBySum(items)) && y in multiset(items);
    }
  }

  lemma {:induction false} SortStep(items: seq<Item>)
    requires items != []
    ensures SortBySum(items) == Insert(items[|items| - 1], SortBySum(items[..|items| - 1]))
  {}

  lemma {:induction false} NodeSortedInit(items: seq<Item>, node: Bytes)
    requires items != [] && NodeSorted(items, node)
    ensures NodeSorted(items[..|items| - 1], node)
    ensures forall y <- items[..|items| - 1] :: node in y.clock && node in items[|items| - 1].clock ==> y.sum <= items[|items| - 1].sum
  {
    var n := |items| - 1;
    forall y | y in items[..n] && node in y.clock && node in items[n].clock ensures y.sum <= items[n].sum {
      var i :| 0 <= i < n && items[..n][i] == y;
      assert items[i] == y;
    }
  }

  lemma {:induction false} SortKeepsNode(items: seq<Item>, node: Bytes)
    requires NodeSorted(items, node)
    ensures SeqsOf(SortBySum(items), node) == SeqsOf(items, node)
  {
    if items != [] {
      hide SeqsOf, Insert, NodeSorted, SortBySum;
      SortStep(items);
      var n := |items| - 1;
      var init, last := items[..n], items[n];
      NodeSortedInit(items, node);
      SortKeepsNode(init, node);
      SortMembers(init);
      InsertKeepsNode(last, SortBySum(init), node);
      SeqsSnoc(SortBySum(init), last, node);
      SeqsSnoc(init, last, node);
      assert items == init + [last];
    }
  }

  // ----- the invariant ------------------------------------------------------------------------

  /** No two of the items are the same event number of the same node. */
  ghost predicate AllDistinct(items: seq<Item>) {
    forall i, j :: 0 <= i < j < |items| ==> items[i].clock != items[j].clock
  }

  /** Per node the output is 1, ..., watermark; what is held comes later. */
  ghost predicate Lined(s: Buffer) {
    && AllSingle(s.heap) && AllDistinct(s.heap)
    && (forall node :: At(s.marks, node) >= 0)
    && (forall node :: SeqsOf(s.output, node) == Range(0, At(s.marks, node)))
    && (forall x <- s.heap :: Ahead(s.marks, x))
  }

  ghost predicate Ahead(marks: Marks, x: Item) {
    forall node <- x.clock.Keys :: x.clock[node] > At(marks, node)
  }

  /** The released items of a node continue its numbering. */
  ghost predicate Continues(marks: Marks, chain: seq<Item>) {
    forall node ::
      && At(marks, node) <= At(After(marks, chain), node)
      && SeqsOf(chain, node) == Range(At(marks, node), At(After(marks, chain), node))
  }

  lemma {:induction false} ReadyIsNext(marks: Marks, chain: seq<Item>, x: Item, node: Bytes)
    requires From(x, node) && Continues(marks, chain) && Ahead(marks, x)
    requires Ready(After(marks, chain), x.clock)
    requires forall y <- chain :: Single(y) && y.clock != x.clock
    ensures x.sum == At(After(marks, chain), node) + 1
  {
    hide After;
    assert node in x.clock && x.clock[node] == x.sum;
    NotReleased(chain, x, node);
    RangeMembers(At(marks, node), At(After(marks, chain), node), x.sum);
  }

  lemma {:induction false} NotReleased(chain: seq<Item>, x: Item, node: Bytes)
    requires From(x, node) && forall y <- chain :: Single(y) && y.clock != x.clock
    ensures x.sum !in SeqsOf(chain, node)
  {
    if chain != [] {
      var last := chain[|chain| - 1];
      NotReleased(chain[..|chain| - 1], x, node);
      assert last in chain;
      var other := NodeOf(last);
    }
  }

  lemma {:induction false} ContinuesSnoc(marks: Marks, chain: seq<Item>, x: Item, node: Bytes)
    requires From(x, node) && Continues(marks, chain) && x.sum == At(After(marks, chain), node) + 1
    ensures Continues(marks, chain + [x])
  {
    var before := After(marks, chain);
    assert (chain + [x])[..|chain|] == chain;
    var after := Raised(before, x.clock);
    assert After(marks, chain + [x]) == after;
    hide After, SeqsOf, Raised, Range;
    forall n
      ensures At(marks, n) <= At(after, n) && SeqsOf(chain + [x], n) == Range(At(marks, n), At(after, n))
    {
      RaisedAt(before, x.clock, n);
      SeqsSnoc(chain, x, n);
      assert At(marks, n) <= At(before, n);
      RangeSnoc(At(marks, n), At(before, n));
    }
  }

  lemma {:induction false} RangeSnoc(a: int, b: int)
    requires a <= b
    ensures Range(a, b + 1) == Range(a, b) + [b + 1]
  {}

  lemma {:induction false} ContinuesNothing(marks: Marks)
    ensures Continues(marks, [])
  {}

  lemma {:induction false} ForcedInit(marks: Marks, chain: seq<Item>)
    requires chain != [] && Forced(marks, chain) == 0
    ensures var n := |chain| - 1; Forced(marks, chain[..n]) == 0 && Ready(After(marks, chain[..n]), chain[n].clock)
  {}

  /** Unforced releases continue the numbering of every node. */
  lemma {:induction false} ChainContinues(marks: Marks, chain: seq<Item>)
    requires AllSingle(chain) && AllDistinct(chain) && Forced(marks, chain) == 0
    requires forall x <- chain :: Ahead(marks, x)
    ensures Continues(marks, chain)
  {
    hide After, Continues, Ready, Forced, Single, Ahead;
    if chain == [] {
      ContinuesNothing(marks);
    } else {
      var n := |chain| - 1;
      var init, x := chain[..n], chain[n];
      ForcedInit(marks, chain);
      ChainContinues(marks, init);
      assert x in chain;
      var node := NodeOf(x);
      forall y | y in init ensures Single(y) && y.clock != x.clock {
        var i :| 0 <= i < n && init[i] == y;
        assert chain[i] == y && y in chain;
      }
      ReadyIsNext(marks, init, x, node);
      ContinuesSnoc(marks, init, x, node);
      assert init + [x] == chain;
    }
  }

  lemma {:induction false} NodeOf(x: Item) returns (node: Bytes)
    requires Single(x)
    ensures From(x, node)
  {
    node :| From(x, node);
  }

  /** A strictly continued numbering is increasing, so sorting by sum does not disturb it. */
  lemma {:induction false} ContinuesSorted(marks: Marks, chain: seq<Item>, node: Bytes)
    requires AllSingle(chain) && SeqsOf(chain, node) == Range(At(marks, node), At(marks, node) + |SeqsOf(chain, node)|)
    ensures NodeSorted(chain, node)
  {
    if chain != [] {
      var n := |chain| - 1;
      var init, x := chain[..n], chain[n];
      var a := At(marks, node);
      assert init + [x] == chain;
      hide SeqsOf, Range, Single;
      SeqsSnoc(init, x, node);
      assert AllSingle(init);
      if node in x.clock {
        RangeSnoc(a, a + |SeqsOf(init, node)|);
        var len := |SeqsOf(init, node)|;
        SnocInjective(SeqsOf(init, node), x.clock[node], Range(a, a + len), a + len + 1);
        ContinuesSorted(marks, init, node);
        forall i | 0 <= i < n && node in chain[i].clock ensures chain[i].sum <= x.sum {
          MemberSeqs(init, node, i);
          RangeMembers(a, a + |SeqsOf(init, node)|, init[i].clock[node]);
          SumIsSeq(chain, i, node);
          SumIsSeq(chain, n, node);
        }
      } else {
        ContinuesSorted(marks, init, node);
      }
      SnocNodeSorted(chain, node);
    }
  }

  lemma {:induction false} SnocInjective(s: seq<int>, q: int, r: seq<int>, t: int)
    requires s + [q] == r + [t]
    ensures s == r && q == t
  {
    assert |s + [q]| == |r + [t]|;
    assert s == (s + [q])[..|s|] && r == (r + [t])[..|r|];
    assert q == (s + [q])[|s|] && t == (r + [t])[|r|];
  }

  lemma {:induction false} SnocNodeSorted(chain: seq<Item>, node: Bytes)
    requires chain != [] && NodeSorted(chain[..|chain| - 1], node)
    requires node in chain[|chain| - 1].clock ==>
      forall i :: 0 <= i < |chain| - 1 && node in chain[i].clock ==> chain[i].sum <= chain[|chain| - 1].sum
    ensures NodeSorted(chain, node)
  {
    var n := |chain| - 1;
    forall i, j | 0 <= i < j < |chain| && node in chain[i].clock && node in chain[j].clock ensures chain[i].sum <= chain[j].sum {
      if j < n { assert chain[..n][i] == chain[i] && chain[..n][j] == chain[j]; }
    }
  }

  lemma {:induction false} SumIsSeq(chain: seq<Item>, i: nat, node: Bytes)
    requires AllSingle(chain) && i < |chain| && node in chain[i].clock
    ensures chain[i].sum == chain[i].clock[node]
  {
    assert chain[i] in chain;
    var n := NodeOf(chain[i]);
  }

  lemma {:induction false} RangeLength(a: int, b: int)
    requires a <= b
    ensures |Range(a, b)| == b - a
    decreases b - a
  {
    if a < b { RangeLength(a, b - 1); }
  }

  // ----- pushes and pops ----------------------------------------------------------------------------

  /** Sub-multisets of a distinct list are distinct. */
  lemma {:induction false} PartDistinct(part: seq<Item>, rest: seq<Item>, whole: seq<Item>, i: nat, j: nat)
    requires AllDistinct(whole) && multiset(part) + multiset(rest) == multiset(whole) && i < j < |part|
    ensures part[i].clock != part[j].clock
  {
    var x, y := part[i], part[j];
    assert x in multiset(part) && y in multiset(part);
    assert x in multiset(whole) && y in multiset(whole);
    var a :| 0 <= a < |whole| && whole[a] == x;
    var b :| 0 <= b < |whole| && whole[b] == y;
    assert x != y by {
      TwoPlaces(part, i, j);
      OnePlace(whole, a);
    }
    assert a < b || b < a;
  }

  lemma {:induction false} TwoPlaces(s: seq<Item>, i: nat, j: nat)
    requires i < j < |s|
    ensures s[i] == s[j] ==> multiset(s)[s[i]] >= 2
  {
    assert s == s[..j] + [s[j]] + s[j + 1..];
    assert s[i] in s[..j] by { assert s[..j][i] == s[i]; }
    assert s[i] in multiset(s[..j]);
  }

  lemma {:induction false} OnePlace(s: seq<Item>, a: nat)
    requires AllDistinct(s) && a < |s|
    ensures multiset(s)[s[a]] == 1
  {
    assert s == s[..a] + [s[a]] + s[a + 1..];
    forall i | 0 <= i < a ensures s[..a][i] != s[a] {}
    var later := s[a + 1..];
    forall i | 0 <= i < |later| ensures later[i] != s[a] {
      assert later[i] == s[a + 1 + i];
    }
    assert s[a] !in multiset(s[..a]) && s[a] !in multiset(s[a + 1..]);
  }

  /** The step of a push of a new event number keeps the invariant. */
  lemma {:induction false} PushKeeps(s: Buffer, s': Buffer, item: Item)
    requires Lined(s) && PushStep(s, s', item) && Single(item) && Ahead(s.marks, item)
    requires forall x <- s.heap :: x.clock != item.clock
    ensures Lined(s')
  {
    hide SeqsOf, Range, Ahead, Single;
    var all := s.heap + [item];
    assert multiset(s'.heap) == multiset(all);
    assert AllDistinct(all) by {
      forall i, j | 0 <= i < j < |all| ensures all[i].clock != all[j].clock {
        if j == |s.heap| { assert s.heap[i] in s.heap; }
      }
    }
    forall x | x in s'.heap ensures x in all { assert x in multiset(s'.heap) && x in multiset(all); }
    forall i, j | 0 <= i < j < |s'.heap| ensures s'.heap[i].clock != s'.heap[j].clock {
      PartDistinct(s'.heap, [], all, i, j);
    }
  }

  lemma {:induction false} PopKeepsHeap(s: Buffer, s': Buffer, now: real, timeout: real, chain: seq<Item>)
    requires Lined(s) && PopStep(s, s', now, timeout, chain)
    ensures AllSingle(chain) && AllDistinct(chain) && AllSingle(s'.heap) && AllDistinct(s'.heap)
    ensures forall x <- chain :: x in s.heap
    ensures forall x <- s'.heap :: x in s.heap
  {
    hide Single, SeqsOf, Range, Ahead, Chain, After, Stuck, Forced, SortBySum;
    forall x | x in chain || x in s'.heap ensures x in s.heap {
      assert x in multiset(chain) || x in multiset(s'.heap);
      assert x in multiset(s.heap);
    }
    forall i, j | 0 <= i < j < |chain| ensures chain[i].clock != chain[j].clock {
      PartDistinct(chain, s'.heap, s.heap, i, j);
    }
    assert multiset(s'.heap) + multiset(chain) == multiset(s.heap);
    forall i, j | 0 <= i < j < |s'.heap| ensures s'.heap[i].clock != s'.heap[j].clock {
      PartDistinct(s'.heap, chain, s.heap, i, j);
    }
  }

  /** What is held back after a pop is still ahead of the watermarks: it is not even next. */
  lemma {:induction false} HeldIsAhead(marks: Marks, x: Item, now: real, timeout: real)
    requires Single(x) && !Eligible(marks, x, now, timeout)
    ensures Ahead(marks, x)
  {
    var node := NodeOf(x);
    assert forall n :: n in x.clock <==> n == node;
  }

  /** Returning a batch continues every node's numbering. */
  lemma {:induction false} OutputContinues(marks: Marks, output: seq<Item>, chain: seq<Item>, node: Bytes)
    requires AllSingle(chain) && Continues(marks, chain) && At(marks, node) >= 0
    requires SeqsOf(output, node) == Range(0, At(marks, node))
    ensures At(After(marks, chain), node) >= 0
    ensures SeqsOf(output + SortBySum(chain), node) == Range(0, At(After(marks, chain), node))
  {
    hide SeqsOf, Range, After, SortBySum, AllSingle, NodeSorted;
    var a, b := At(marks, node), At(After(marks, chain), node);
    assert a <= b && SeqsOf(chain, node) == Range(a, b);
    RangeLength(a, b);
    ContinuesSorted(marks, chain, node);
    SortKeepsNode(chain, node);
    SeqsConcat(output, SortBySum(chain), node);
    RangeConcat(0, a, b);
  }

  lemma {:induction false} HeldAllAhead(marks: Marks, items: seq<Item>, now: real, timeout: real)
    requires AllSingle(items) && Stuck(marks, items, now, timeout)
    ensures forall x <- items :: Ahead(marks, x)
  {
    hide Ahead, Eligible;
    forall x | x in items ensures Ahead(marks, x) { HeldIsAhead(marks, x, now, timeout); }
  }

  /** A pop without forced releases keeps the invariant. */
  lemma {:induction false} PopKeeps(s: Buffer, s': Buffer, now: real, timeout: real, chain: seq<Item>)
    requires Lined(s) && PopStep(s, s', now, timeout, chain) && s'.forced == s.forced
    ensures Lined(s')
  {
    PopKeepsHeap(s, s', now, timeout, chain);
    hide SeqsOf, Range, Ahead, Chain, After, Forced, SortBySum, AllDistinct, AllSingle, Stuck, Continues;
    ChainContinues(s.marks, chain);
    HeldAllAhead(s'.marks, s'.heap, now, timeout);
    forall node ensures At(s'.marks, node) >= 0 && SeqsOf(s'.output, node) == Range(0, At(s'.marks, node)) {
      OutputContinues(s.marks, s.output, chain, node);
    }
  }

  // ----- whole runs ------------------------------------------------------------------------------------

  datatype Step = Push(item: Item) | Pop(now: real, chain: seq<Item>)

  ghost predicate Took(s: Buffer, s': Buffer, step: Step, timeout: real) {
    match step
    case Push(item) => PushStep(s, s', item)
    case Pop(now, chain) => PopStep(s, s', now, timeout, chain)
  }

  /** A history of the buffer: one state more than steps, starting empty. */
  ghost predicate History(states: seq<Buffer>, steps: seq<Step>, timeout: real) {
    && |states| == |steps| + 1 && states[0] == Buffer([], map[], 0, [])
    && forall i :: 0 <= i < |steps| ==> Took(states[i], states[i + 1], steps[i], timeout)
  }

  /** Pushed events have one component, a positive number, and never repeat. */
  ghost predicate FreshPushes(steps: seq<Step>) {
    && (forall i :: 0 <= i < |steps| && steps[i].Push? ==> Single(steps[i].item))
    && (forall i, j :: 0 <= i < j < |steps| && steps[i].Push? && steps[j].Push? ==> steps[i].item.clock != steps[j].item.clock)
  }

  ghost predicate PushedBefore(steps: seq<Step>, k: nat, x: Item) {
    exists i :: 0 <= i < k && i < |steps| && steps[i] == Push(x)
  }

  /** Nothing comes out of the buffer, or sits in it, that was not pushed. */
  ghost predicate Origin(s: Buffer, steps: seq<Step>, k: nat) {
    (forall x <- s.heap :: PushedBefore(steps, k, x)) && (forall x <- s.output :: PushedBefore(steps, k, x))
  }

  lemma {:induction false} LaterPushed(steps: seq<Step>, k: nat, x: Item)
    requires PushedBefore(steps, k, x)
    ensures PushedBefore(steps, k + 1, x)
  {}

  lemma {:induction false} OriginKept(s: Buffer, s': Buffer, steps: seq<Step>, k: nat, timeout: real)
    requires k < |steps| && Took(s, s', steps[k], timeout) && Origin(s, steps, k)
    ensures Origin(s', steps, k + 1)
  {
    hide PushedBefore, Chain, Stuck, After, Forced, SortBySum;
    forall x | x in s'.heap || x in s'.output ensures PushedBefore(steps, k + 1, x) {
      if x in s.heap || x in s.output {
        LaterPushed(steps, k, x);
      } else {
        FromHeapOrPush(s, s', steps[k], timeout, x);
        JustPushed(steps, k, x);
      }
    }
  }

  lemma {:induction false} JustPushed(steps: seq<Step>, k: nat, x: Item)
    requires k < |steps| && steps[k] == Push(x)
    ensures PushedBefore(steps, k + 1, x)
  {}

  lemma {:induction false} FromHeapOrPush(s: Buffer, s': Buffer, step: Step, timeout: real, x: Item)
    requires Took(s, s', step, timeout) && (x in s'.heap || x in s'.output)
    ensures x in s.heap || x in s.output || step == Push(x)
  {
    hide Chain, Stuck, After, Forced, SortBySum;
    if x in s'.heap { assert x in multiset(s'.heap); }
    match step
    case Push(item) =>
      assert x in multiset(s'.heap) ==> x in multiset(s.heap) + multiset{item};
    case Pop(now, chain) =>
      SortMembers(chain);
      if x in chain { assert x in multiset(chain); }
      assert x in multiset(chain) || x in multiset(s'.heap) ==> x in multiset(s.heap);
  }

  /** A new event number is ahead of the watermarks and differs from everything held. */
  lemma {:induction false} NewIsAhead(s: Buffer, steps: seq<Step>, k: nat)
    requires Lined(s) && Origin(s, steps, k) && FreshPushes(steps) && k < |steps| && steps[k].Push?
    ensures Ahead(s.marks, steps[k].item) && forall x <- s.heap :: x.clock != steps[k].item.clock
  {
    hide SeqsOf, Range;
    var item := steps[k].item;
    var node := NodeOf(item);
    assert forall n :: n in item.clock <==> n == node;
    forall x | PushedBefore(steps, k, x) ensures Single(x) && x.clock != item.clock {
      var i :| 0 <= i < k && i < |steps| && steps[i] == Push(x);
    }
    NotReleased(s.output, item, node);
    RangeMembers(0, At(s.marks, node), item.sum);
  }

  lemma {:induction false} StepKeeps(s: Buffer, s': Buffer, steps: seq<Step>, k: nat, timeout: real)
    requires k < |steps| && Took(s, s', steps[k], timeout) && FreshPushes(steps)
    requires Lined(s) && Origin(s, steps, k) && s'.forced == s.forced
    ensures Lined(s') && Origin(s', steps, k + 1)
  {
    hide Lined, Origin, FreshPushes, PushStep, PopStep;
    OriginKept(s, s', steps, k, timeout);
    match steps[k]
    case Push(item) =>
      NewIsAhead(s, steps, k);
      SinglePush(steps, k);
      PushKeeps(s, s', item);
    case Pop(now, chain) => PopKeeps(s, s', now, timeout, chain);
  }

  lemma {:induction false} ForcedGrows(s: Buffer, s': Buffer, step: Step, timeout: real)
    requires Took(s, s', step, timeout)
    ensures s.forced <= s'.forced
  {
    hide Chain, Stuck, After, Forced, SortBySum;
  }

  lemma {:induction false} EmptyLined(steps: seq<Step>)
    ensures Lined(Buffer([], map[], 0, [])) && Origin(Buffer([], map[], 0, []), steps, 0)
  {}

  lemma {:induction false} HistoryLined(states: seq<Buffer>, steps: seq<Step>, timeout: real, k: nat)
    requires History(states, steps, timeout) && FreshPushes(steps) && k < |states| && states[k].forced == 0
    ensures Lined(states[k]) && Origin(states[k], steps, k)
  {
    hide Lined, Origin, FreshPushes, Took;
    if k == 0 {
      EmptyLined(steps);
    } else {
      assert Took(states[k - 1], states[k - 1 + 1], steps[k - 1], timeout);
      ForcedGrows(states[k - 1], states[k], steps[k - 1], timeout);
      HistoryLined(states, steps, timeout, k - 1);
      StepKeeps(states[k - 1], states[k], steps, k - 1, timeout);
    }
  }

  lemma {:induction false} SinglePush(steps: seq<Step>, k: nat)
    requires FreshPushes(steps) && k < |steps| && steps[k].Push?
    ensures Single(steps[k].item)
  {}

  /** The stream theorem: after any history of pushes and pops without a forced release, the
      concatenated output for each node is exactly 1, 2, ..., watermark. */
  lemma {:induction false} DeliversInOrder(states: seq<Buffer>, steps: seq<Step>, timeout: real, node: Bytes)
    requires History(states, steps, timeout) && FreshPushes(steps) && states[|steps|].forced == 0
    ensures var s := states[|steps|]; SeqsOf(s.output, node) == Range(0, At(s.marks, node))
  {
    HistoryLined(states, steps, timeout, |steps|);
  }

  // ----- how far the output gets -------------------------------------------------------------------

  ghost predicate NumberPushed(steps: seq<Step>, node: Bytes, q: int) {
    exists i :: 0 <= i < |steps| && steps[i].Push? && From(steps[i].item, node) && steps[i].item.sum == q
  }

  /** Nothing pushed is lost: it is held, or it came out. */
  lemma {:induction false} PushedStays(states: seq<Buffer>, steps: seq<Step>, timeout: real, i: nat, k: nat)
    requires History(states, steps, timeout) && i < k < |states| && steps[i].Push?
    ensures steps[i].item in states[k].heap || steps[i].item in states[k].output
    decreases k
  {
    hide Took;
    assert Took(states[k - 1], states[k - 1 + 1], steps[k - 1], timeout);
    if i < k - 1 { PushedStays(states, steps, timeout, i, k - 1); }
    KeptByStep(states[k - 1], states[k], steps[k - 1], timeout, steps[i].item);
  }

  lemma {:induction false} KeptByStep(s: Buffer, s': Buffer, step: Step, timeout: real, x: Item)
    requires Took(s, s', step, timeout) && (x in s.heap || x in s.output || step == Push(x))
    ensures x in s'.heap || x in s'.output
  {
    hide Chain, Stuck, After, Forced;
    match step
    case Push(item) =>
      assert x in s.heap ==> x in multiset(s.heap);
      assert x in multiset(s.heap) + multiset{item} ==> x in multiset(s'.heap);
    case Pop(now, chain) =>
      SortProps(chain);
      if x in s.heap {
        assert x in multiset(s.heap);
        assert x in multiset(chain) || x in multiset(s'.heap);
        assert x in multiset(chain) ==> x in multiset(SortBySum(chain));
      }
  }

  /** What a pop leaves behind is not even the next number of its node. */
  lemma {:induction false} HeldIsFurther(s: Buffer, s': Buffer, step: Step, timeout: real, x: Item, node: Bytes)
    requires step.Pop? && Took(s, s', step, timeout) && x in s'.heap && From(x, node)
    ensures x.sum > At(s'.marks, node) + 1
  {
    hide Chain, After, Forced, SortBySum;
    assert !Eligible(s'.marks, x, step.now, timeout);
    ReadyIff(s'.marks, node, x.sum);
  }

  /** The output is as long as it can be: after a pop, number `q` of a node is out exactly if all
      of 1, ..., q have been pushed. */
  lemma {:induction false} OutputIsMaximal(states: seq<Buffer>, steps: seq<Step>, timeout: real, node: Bytes, q: int)
    requires History(states, steps, timeout) && FreshPushes(steps) && states[|steps|].forced == 0
    requires steps != [] && steps[|steps| - 1].Pop? && q >= 1
    ensures q <= At(states[|steps|].marks, node) <==> forall p :: 1 <= p <= q ==> NumberPushed(steps, node, p)
  {
    hide Took, FreshPushes, NumberPushed, SeqsOf, Range, From;
    var n := |steps|;
    var s := states[n];
    var w := At(s.marks, node);
    HistoryLined(states, steps, timeout, n);
    forall p | 1 <= p <= w ensures NumberPushed(steps, node, p) {
      OutIsPushed(s, steps, node, p);
    }
    NextNotPushed(states, steps, timeout, node);
  }

  lemma {:induction false} OutIsPushed(s: Buffer, steps: seq<Step>, node: Bytes, p: int)
    requires Lined(s) && Origin(s, steps, |steps|) && FreshPushes(steps) && 1 <= p <= At(s.marks, node)
    ensures NumberPushed(steps, node, p)
  {
    hide SeqsOf, Range;
    RangeMembers(0, At(s.marks, node), p);
    var i := SeqsMember(s.output, node, p);
    assert s.output[i] in s.output;
    assert PushedBefore(steps, |steps|, s.output[i]);
    var j :| 0 <= j < |steps| && steps[j] == Push(s.output[i]);
    SinglePush(steps, j);
    var n := NodeOf(s.output[i]);
  }

  /** A pushed event is out, or it is held and further than the next number. */
  lemma {:induction false} NotNext(states: seq<Buffer>, steps: seq<Step>, timeout: real, node: Bytes, i: nat)
    requires History(states, steps, timeout) && steps != [] && steps[|steps| - 1].Pop? && Lined(states[|steps|])
    requires i < |steps| && steps[i].Push? && From(steps[i].item, node)
    ensures steps[i].item.sum != At(states[|steps|].marks, node) + 1
  {
    hide Took, SeqsOf, Range;
    var n := |steps|;
    var s, x := states[n], steps[i].item;
    PushedStays(states, steps, timeout, i, n);
    assert Took(states[n - 1], states[n - 1 + 1], steps[n - 1], timeout);
    if x in s.output {
      var j :| 0 <= j < |s.output| && s.output[j] == x;
      MemberSeqs(s.output, node, j);
      RangeMembers(0, At(s.marks, node), x.sum);
    } else {
      HeldIsFurther(states[n - 1], s, steps[n - 1], timeout, x, node);
    }
  }

  /** The number after the watermark has not been pushed: it would be out. */
  lemma {:induction false} NextNotPushed(states: seq<Buffer>, steps: seq<Step>, timeout: real, node: Bytes)
    requires History(states, steps, timeout) && steps != [] && steps[|steps| - 1].Pop? && Lined(states[|steps|])
    ensures !NumberPushed(steps, node, At(states[|steps|].marks, node) + 1)
  {
    var w := At(states[|steps|].marks, node);
    hide History, Lined, From;
    forall i | 0 <= i < |steps| && steps[i].Push? && From(steps[i].item, node) ensures steps[i].item.sum != w + 1
    {
      NotNext(states, steps, timeout, node, i);
    }
  }
}
