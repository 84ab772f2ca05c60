/**
 Aggregation end to end: what the rows of a flush, and the pooled rows built from them, say
 about the boards that were processed.
 */
module AggregationTotals {
  import opened Aggregation

  // ----- three totals at once ------------------------------------------------------------

  datatype Measure = Size | WinCount | PlacementSum

  function Weight(p: int, m: Measure): int {
    match m
    case Size => 1
    case WinCount => if p <= 4 then 1 else 0
    case PlacementSum => p
  }

  function Total(ps: seq<int>, m: Measure): int {
    match m
    case Size => |ps|
    case WinCount => Wins(ps)
    case PlacementSum => Sum(ps)
  }

  lemma {:induction false} TotalConcat(a: seq<int>, b: seq<int>, m: Measure)
    ensures Total(a + b, m) == Total(a, m) + Total(b, m)
  {
    WinsConcat(a, b);
    SumConcat(a, b);
  }

  lemma {:induction false} TotalRepeat(p: int, n: nat, m: Measure)
    ensures Total(Repeat(p, n), m) == n * Weight(p, m)
  {
    if n > 0 {
      TotalRepeat(p, n - 1, m);
      TotalConcat(Repeat(p, n - 1), [p], m);
      TotalOne(p, m);
      assert n * Weight(p, m) == (n - 1) * Weight(p, m) + Weight(p, m);
    }
  }

  lemma {:induction false} TotalOne(p: int, m: Measure)
    ensures Total([p], m) == Weight(p, m) && Total([], m) == 0
  {
    assert [p][..0] == [] && Wins([]) == 0 && Sum([]) == 0;
    assert Wins([p]) == Wins([p][..0]) + if p <= 4 then 1 else 0;
    assert Sum([p]) == Sum([p][..0]) + p;
  }

  // ----- the reference: samples straight from the boards ------------------------------------

  /** How many of a board's contributions have keys of the wanted kind. */
  function CountWhere(keys: seq<BufKey>, wanted: BufKey -> bool): nat {
    if keys == [] then 0 else CountWhere(keys[..|keys| - 1], wanted) + if wanted(keys[|keys| - 1]) then 1 else 0
  }

  /** The placements of all boards, each as often as it contributes to the wanted keys. */
  ghost function SamplesWhere(boards: seq<Board>, nameOf: seq<Unit> -> Id, wanted: BufKey -> bool): seq<int> {
    if boards == [] then []
    else
      var b := boards[|boards| - 1];
      SamplesWhere(boards[..|boards| - 1], nameOf, wanted)
        + Repeat(b.player.placement, CountWhere(BoardKeys(b.player, b.group, nameOf), wanted))
  }

  // ----- sums over the keys of rows ------------------------------------------------------------

  ghost predicate DistinctKeys(ks: seq<BufKey>) {
    forall i, j :: 0 <= i < j < |ks| ==> ks[i] != ks[j]
  }

  /** How often the listed keys occur among a board's contributions. */
  function Hits(keys: seq<BufKey>, ks: seq<BufKey>): nat {
    if ks == [] then 0 else Hits(keys, ks[..|ks| - 1]) + Count(keys, ks[|ks| - 1])
  }

  lemma {:induction false} HitsSnoc(keys: seq<BufKey>, x: BufKey, ks: seq<BufKey>)
    requires DistinctKeys(ks)
    ensures Hits(keys + [x], ks) == Hits(keys, ks) + if x in ks then 1 else 0
  {
    if ks != [] {
      hide Count, DistinctKeys;
      var n := |ks| - 1;
      DistinctInit(ks, x);
      HitsSnoc(keys, x, ks[..n]);
      CountSnoc(keys, x, ks[n]);
    }
  }

  lemma {:induction false} DistinctInit(ks: seq<BufKey>, x: BufKey)
    requires ks != [] && DistinctKeys(ks)
    ensures var n := |ks| - 1;
      && DistinctKeys(ks[..n]) && ks[n] !in ks[..n]
      && (x in ks <==> x in ks[..n] || x == ks[n])
  {}

  lemma {:induction false} HitsNothing(ks: seq<BufKey>)
    ensures Hits([], ks) == 0
  {
    if ks != [] { HitsNothing(ks[..|ks| - 1]); }
  }

  /** Distinct keys that include every wanted key hit exactly the wanted contributions. */
  lemma {:induction false} HitsAreWanted(keys: seq<BufKey>, ks: seq<BufKey>, wanted: BufKey -> bool)
    requires DistinctKeys(ks) && (forall k <- ks :: wanted(k)) && forall k <- keys :: wanted(k) ==> k in ks
    ensures Hits(keys, ks) == CountWhere(keys, wanted)
  {
    if keys == [] {
      HitsNothing(ks);
    } else {
      hide Hits, DistinctKeys;
      var n := |keys| - 1;
      forall k | k in keys[..n] && wanted(k) ensures k in ks { assert k in keys; }
      HitsAreWanted(keys[..n], ks, wanted);
      HitsSnoc(keys[..n], keys[n], ks);
      assert keys == keys[..n] + [keys[n]] && keys[n] in keys;
      assert keys[n] in ks <==> wanted(keys[n]);
    }
  }

  /** The total over the placements of the listed keys. */
  ghost function KeyTotal(boards: seq<Board>, nameOf: seq<Unit> -> Id, ks: seq<BufKey>, m: Measure): int {
    if ks == [] then 0
    else KeyTotal(boards, nameOf, ks[..|ks| - 1], m) + Total(Placements(boards, nameOf, ks[|ks| - 1]), m)
  }

  lemma {:induction false} PlacementsSnoc(boards: seq<Board>, nameOf: seq<Unit> -> Id, k: BufKey, m: Measure)
    requires boards != []
    ensures var b := boards[|boards| - 1];
      Total(Placements(boards, nameOf, k), m) ==
      Total(Placements(boards[..|boards| - 1], nameOf, k), m)
        + Count(BoardKeys(b.player, b.group, nameOf), k) * Weight(b.player.placement, m)
  {
    hide Total, Weight, Count, BoardKeys, Repeat;
    var b := boards[|boards| - 1];
    var n := Count(BoardKeys(b.player, b.group, nameOf), k);
    TotalConcat(Placements(boards[..|boards| - 1], nameOf, k), Repeat(b.player.placement, n), m);
    TotalRepeat(b.player.placement, n, m);
  }

  lemma {:induction false} Distribute(a: int, b: int, w: int)
    ensures (a + b) * w == a * w + b * w
  {}

  /** One more board adds its placement once per hit. */
  lemma {:induction false} KeyTotalSnoc(boards: seq<Board>, nameOf: seq<Unit> -> Id, ks: seq<BufKey>, m: Measure)
    requires boards != []
    ensures var b := boards[|boards| - 1];
      KeyTotal(boards, nameOf, ks, m) ==
      KeyTotal(boards[..|boards| - 1], nameOf, ks, m) + Hits(BoardKeys(b.player, b.group, nameOf), ks) * Weight(b.player.placement, m)
  {
    hide Total, Weight, Placements, Count, BoardKeys;
    var b := boards[|boards| - 1];
    var keys, w := BoardKeys(b.player, b.group, nameOf), Weight(b.player.placement, m);
    if ks != [] {
      var n := |ks| - 1;
      KeyTotalSnoc(boards, nameOf, ks[..n], m);
      PlacementsSnoc(boards, nameOf, ks[n], m);
      HitsStep(keys, ks);
      KeyTotalStep(boards, nameOf, ks, m);
      KeyTotalStep(boards[..|boards| - 1], nameOf, ks, m);
      hide Hits, KeyTotal;
      Distribute(Hits(keys, ks[..n]), Count(keys, ks[n]), w);
    }
  }

  lemma {:induction false} HitsStep(keys: seq<BufKey>, ks: seq<BufKey>)
    requires ks != []
    ensures Hits(keys, ks) == Hits(keys, ks[..|ks| - 1]) + Count(keys, ks[|ks| - 1])
  {}

  lemma {:induction false} KeyTotalStep(boards: seq<Board>, nameOf: seq<Unit> -> Id, ks: seq<BufKey>, m: Measure)
    requires ks != []
    ensures KeyTotal(boards, nameOf, ks, m) ==
      KeyTotal(boards, nameOf, ks[..|ks| - 1], m) + Total(Placements(boards, nameOf, ks[|ks| - 1]), m)
  {
    hide Total, Placements;
  }

  lemma {:induction false} KeyTotalNothing(nameOf: seq<Unit> -> Id, ks: seq<BufKey>, m: Measure)
    ensures KeyTotal([], nameOf, ks, m) == 0
  {
    TotalOne(0, m);
    if ks != [] { KeyTotalNothing(nameOf, ks[..|ks| - 1], m); }
  }

  ghost predicate Listed(boards: seq<Board>, nameOf: seq<Unit> -> Id, ks: seq<BufKey>, wanted: BufKey -> bool) {
    forall b <- boards :: forall k <- BoardKeys(b.player, b.group, nameOf) :: wanted(k) ==> k in ks
  }

  /** Distinct keys that list everything wanted carry exactly the wanted samples. */
  lemma {:induction false} KeyTotalIsReference(boards: seq<Board>, nameOf: seq<Unit> -> Id, ks: seq<BufKey>, wanted: BufKey -> bool, m: Measure)
    requires DistinctKeys(ks) && (forall k <- ks :: wanted(k)) && Listed(boards, nameOf, ks, wanted)
    ensures KeyTotal(boards, nameOf, ks, m) == Total(SamplesWhere(boards, nameOf, wanted), m)
  {
    hide Total, Weight, BoardKeys, Hits, DistinctKeys, CountWhere, Repeat, KeyTotal;
    if boards == [] {
      KeyTotalNothing(nameOf, ks, m);
      TotalOne(0, m);
    } else {
      var n := |boards| - 1;
      var b := boards[n];
      var keys := BoardKeys(b.player, b.group, nameOf);
      assert b in boards && forall c <- boards[..n] :: c in boards;
      KeyTotalIsReference(boards[..n], nameOf, ks, wanted, m);
      KeyTotalSnoc(boards, nameOf, ks, m);
      HitsAreWanted(keys, ks, wanted);
      TotalConcat(SamplesWhere(boards[..n], nameOf, wanted), Repeat(b.player.placement, CountWhere(keys, wanted)), m);
      TotalRepeat(b.player.placement, CountWhere(keys, wanted), m);
    }
  }

  // ----- the rows of a flush ----------------------------------------------------------------------

  function RowsWhere(rows: seq<Row>, wanted: BufKey -> bool): seq<Row> {
    if rows == [] then []
    else
      var rest, r := RowsWhere(rows[..|rows| - 1], wanted), rows[|rows| - 1];
      if wanted(r.key) then rest + [r] else rest
  }

  function KeysOf(es: seq<Row>): seq<BufKey> {
    seq(|es|, i requires 0 <= i < |es| => es[i].key)
  }

  lemma {:induction false} RowsWhereMembers(rows: seq<Row>, wanted: BufKey -> bool)
    ensures forall r :: r in RowsWhere(rows, wanted) <==> r in rows && wanted(r.key)
  {
    if rows != [] {
      RowsWhereMembers(rows[..|rows| - 1], wanted);
      assert forall r :: r in rows <==> r in rows[..|rows| - 1] || r == rows[|rows| - 1];
    }
  }

  lemma {:induction false} RowsWhereDistinct(rows: seq<Row>, wanted: BufKey -> bool)
    requires forall i, j :: 0 <= i < j < |rows| ==> rows[i].key != rows[j].key
    ensures DistinctKeys(KeysOf(RowsWhere(rows, wanted)))
  {
    if rows != [] {
      var n := |rows| - 1;
      RowsWhereDistinct(rows[..n], wanted);
      RowsWhereMembers(rows[..n], wanted);
      var rest := RowsWhere(rows[..n], wanted);
      forall i | 0 <= i < |rest| ensures rest[i].key != rows[n].key {
        assert rest[i] in rows[..n];
      }
      KeysOfSnoc(rest, rows[n]);
    }
  }

  lemma {:induction false} KeysOfSnoc(es: seq<Row>, r: Row)
    requires DistinctKeys(KeysOf(es)) && forall i :: 0 <= i < |es| ==> es[i].key != r.key
    ensures DistinctKeys(KeysOf(es + [r]))
  {
    var ks := KeysOf(es + [r]);
    forall i, j | 0 <= i < j < |ks| ensures ks[i] != ks[j] {
      if j < |es| { assert ks[i] == KeysOf(es)[i] && ks[j] == KeysOf(es)[j]; }
    }
  }

  lemma {:induction false} RowsForIsRowsWhere(rows: seq<Row>, id: Id, wanted: BufKey -> bool)
    requires forall k: BufKey :: wanted(k) <==> k.id == id
    ensures RowsFor(rows, id) == RowsWhere(rows, wanted)
  {
    if rows != [] { RowsForIsRowsWhere(rows[..|rows| - 1], id, wanted); }
  }

  lemma {:induction false} CountPositive(keys: seq<BufKey>, k: BufKey)
    ensures k in keys <==> Count(keys, k) > 0
  {
    if keys != [] {
      CountPositive(keys[..|keys| - 1], k);
      assert k in keys <==> k in keys[..|keys| - 1] || k == keys[|keys| - 1];
    }
  }

  /** A key that some board contributed to has samples. */
  lemma {:induction false} ContributedHasSamples(boards: seq<Board>, nameOf: seq<Unit> -> Id, b: Board, k: BufKey)
    requires b in boards && k in BoardKeys(b.player, b.group, nameOf)
    ensures Placements(boards, nameOf, k) != []
  {
    hide Count, BoardKeys;
    var n := |boards| - 1;
    if boards[n] == b {
      CountPositive(BoardKeys(b.player, b.group, nameOf), k);
    } else {
      assert b in boards[..n];
      ContributedHasSamples(boards[..n], nameOf, b, k);
    }
  }

  /** The flushed rows list every key that any board contributed to. */
  lemma {:induction false} FlushLists(buffers: Buffers, totals: map<Group, nat>, boards: seq<Board>, nameOf: seq<Unit> -> Id,
                                      rows: seq<Row>, wanted: BufKey -> bool)
    requires Accounts(buffers, totals, boards, nameOf) && Flushed(rows, buffers, totals)
    ensures Listed(boards, nameOf, KeysOf(RowsWhere(rows, wanted)), wanted)
  {
    hide BoardKeys, RowOf, Placements, RowsWhere;
    RowsWhereMembers(rows, wanted);
    var es := RowsWhere(rows, wanted);
    forall b, k | b in boards && k in BoardKeys(b.player, b.group, nameOf) && wanted(k) ensures k in KeysOf(es) {
      ContributedHasSamples(boards, nameOf, b, k);
      assert Get(buffers, k) == Placements(boards, nameOf, k);
      var r := RowOf(k, buffers[k], totals);
      assert r.key == k by { RowKey(k, buffers[k], totals); }
      var i :| 0 <= i < |es| && es[i] == r;
      assert KeysOf(es)[i] == k;
    }
  }

  lemma {:induction false} RowKey(k: BufKey, ps: seq<int>, totals: map<Group, nat>)
    requires ps != []
    ensures var r := RowOf(k, ps, totals);
      r.key == k && r.sampleSize == |ps| && r.winRate == WinRate(ps) && r.avgPlacement == Mean(ps)
  {}

  /** The buffered placements behind some rows. */
  ghost function Behind(boards: seq<Board>, nameOf: seq<Unit> -> Id, es: seq<Row>): seq<seq<int>> {
    seq(|es|, i requires 0 <= i < |es| => Placements(boards, nameOf, es[i].key))
  }

  lemma {:induction false} FlushDescribes(buffers: Buffers, totals: map<Group, nat>, boards: seq<Board>, nameOf: seq<Unit> -> Id,
                                          rows: seq<Row>, wanted: BufKey -> bool)
    requires Accounts(buffers, totals, boards, nameOf) && Flushed(rows, buffers, totals)
    ensures Describe(RowsWhere(rows, wanted), Behind(boards, nameOf, RowsWhere(rows, wanted)))
  {
    hide Placements, RowsWhere, WinRate, Mean, RowOf;
    RowsWhereMembers(rows, wanted);
    var es := RowsWhere(rows, wanted);
    forall i | 0 <= i < |es|
      ensures var ps := Placements(boards, nameOf, es[i].key);
        ps != [] && es[i].sampleSize == |ps| && es[i].winRate == WinRate(ps) && es[i].avgPlacement == Mean(ps)
    {
      assert es[i] in es;
      var k := es[i].key;
      var j :| 0 <= j < |rows| && rows[j] == es[i];
      assert Get(buffers, k) == Placements(boards, nameOf, k);
      RowKey(k, buffers[k], totals);
    }
  }

  lemma {:induction false} FlattenTotal(boards: seq<Board>, nameOf: seq<Unit> -> Id, es: seq<Row>, m: Measure)
    ensures Total(Flatten(Behind(boards, nameOf, es)), m) == KeyTotal(boards, nameOf, KeysOf(es), m)
  {
    if es == [] {
      TotalOne(0, m);
    } else {
      hide Total, Placements;
      var n := |es| - 1;
      FlattenTotal(boards, nameOf, es[..n], m);
      assert Behind(boards, nameOf, es)[..n] == Behind(boards, nameOf, es[..n]);
      assert KeysOf(es)[..n] == KeysOf(es[..n]);
      TotalConcat(Flatten(Behind(boards, nameOf, es[..n])), Placements(boards, nameOf, es[n].key), m);
    }
  }

  /** Every total over the raw placements behind the wanted rows is that total over the boards. */
  lemma {:induction false} FlushTotals(buffers: Buffers, totals: map<Group, nat>, boards: seq<Board>, nameOf: seq<Unit> -> Id,
                                       rows: seq<Row>, wanted: BufKey -> bool, m: Measure)
    requires Accounts(buffers, totals, boards, nameOf) && Flushed(rows, buffers, totals)
    ensures Total(Flatten(Behind(boards, nameOf, RowsWhere(rows, wanted))), m) == Total(SamplesWhere(boards, nameOf, wanted), m)
  {
    hide Total, Accounts, SamplesWhere, KeyTotal, Behind, Flatten, Listed, RowsWhere, DistinctKeys;
    var es := RowsWhere(rows, wanted);
    FlushLists(buffers, totals, boards, nameOf, rows, wanted);
    RowsWhereDistinct(rows, wanted);
    RowsWhereMembers(rows, wanted);
    forall k | k in KeysOf(es) ensures wanted(k) {
      var i :| 0 <= i < |es| && es[i].key == k;
      assert es[i] in es;
    }
    FlattenTotal(boards, nameOf, es, m);
    KeyTotalIsReference(boards, nameOf, KeysOf(es), wanted, m);
  }

  /** From boards to the answer of the API: process boards, flush, pool. The pooled row of an
      entity exists exactly if some board contributed to it, and it reports the number, the win
      rate and the mean placement of all placements of the boards it was on, each counted as
      often as it was. */
  lemma {:induction false} PoolingOverBoards(buffers: Buffers, totals: map<Group, nat>, boards: seq<Board>, nameOf: seq<Unit> -> Id,
                                             rows: seq<Row>, id: Id)
    requires Accounts(buffers, totals, boards, nameOf) && Flushed(rows, buffers, totals)
    ensures var all, es := SamplesWhere(boards, nameOf, (k: BufKey) => k.id == id), RowsFor(rows, id);
      && Samples(es) == |all|
      && (all != [] ==>
            var p := PoolOf(id, es);
            p.sampleSize == |all| && p.winRate == WinRate(all) && p.avgPlacement == Mean(all))
  {
    hide Accounts, Flushed, SamplesWhere, RowsWhere, RowsFor, Behind, Flatten, Describe, Wins, Sum, Samples;
    var wanted := (k: BufKey) => k.id == id;
    RowsForIsRowsWhere(rows, id, wanted);
    var all, es := SamplesWhere(boards, nameOf, wanted), RowsWhere(rows, wanted);
    var raw := Flatten(Behind(boards, nameOf, es));
    FlushDescribes(buffers, totals, boards, nameOf, rows, wanted);
    FlushTotals(buffers, totals, boards, nameOf, rows, wanted, Size);
    FlushTotals(buffers, totals, boards, nameOf, rows, wanted, WinCount);
    FlushTotals(buffers, totals, boards, nameOf, rows, wanted, PlacementSum);
    assert |raw| == |all| && Wins(raw) == Wins(all) && Sum(raw) == Sum(all);
    WeightedTotals(es, Behind(boards, nameOf, es));
    if all != [] {
      assert es != [] by { NoRows(); }
      PoolingIsExact(id, es, Behind(boards, nameOf, es));
    }
  }

  lemma {:induction false} NoRows()
    ensures Samples([]) == 0
  {}

  /** The composition rows of a flush partition the boards: in every (patch, tier, region) their
      sample sizes add up to the boards played there, and no item row has more. */
  lemma {:induction false} FlushedCompositions(buffers: Buffers, totals: map<Group, nat>, boards: seq<Board>, nameOf: seq<Unit> -> Id,
                                               rows: seq<Row>, g: Group)
    requires Accounts(buffers, totals, boards, nameOf) && Flushed(rows, buffers, totals)
    ensures Samples(RowsWhere(rows, (k: BufKey) => k.kind == Composition && k.group == g)) == NumBoards(boards, g)
    ensures forall r <- rows :: r.key.kind == PlainItem && r.key.group == g ==> r.sampleSize <= NumBoards(boards, g)
  {
    hide Accounts, Flushed, SamplesWhere, RowsWhere, Behind, Flatten, Describe, Wins, Sum, Samples;
    var wanted := (k: BufKey) => k.kind == Composition && k.group == g;
    var es := RowsWhere(rows, wanted);
    FlushDescribes(buffers, totals, boards, nameOf, rows, wanted);
    FlushTotals(buffers, totals, boards, nameOf, rows, wanted, Size);
    WeightedTotals(es, Behind(boards, nameOf, es));
    CompositionSamples(boards, nameOf, g, wanted);
    forall r | r in rows && r.key.kind == PlainItem && r.key.group == g ensures r.sampleSize <= NumBoards(boards, g) {
      ItemsBounded(boards, nameOf, r.key);
      RowSamples(buffers, totals, boards, nameOf, rows, r);
    }
  }

  lemma {:induction false} RowSamples(buffers: Buffers, totals: map<Group, nat>, boards: seq<Board>, nameOf: seq<Unit> -> Id, rows: seq<Row>, r: Row)
    requires Accounts(buffers, totals, boards, nameOf) && Flushed(rows, buffers, totals) && r in rows
    ensures r.sampleSize == |Placements(boards, nameOf, r.key)|
  {
    hide Placements, WinRate, Mean;
    assert Get(buffers, r.key) == Placements(boards, nameOf, r.key);
  }

  lemma {:induction false} CompositionSamples(boards: seq<Board>, nameOf: seq<Unit> -> Id, g: Group, wanted: BufKey -> bool)
    requires forall k: BufKey :: wanted(k) <==> k.kind == Composition && k.group == g
    ensures |SamplesWhere(boards, nameOf, wanted)| == NumBoards(boards, g)
  {
    if boards != [] {
      hide BoardKeys;
      var b := boards[|boards| - 1];
      CompositionSamples(boards[..|boards| - 1], nameOf, g, wanted);
      OneComposition(b.player, b.group, nameOf, g, wanted);
    }
  }

  lemma {:induction false} OneComposition(p: Player, h: Group, nameOf: seq<Unit> -> Id, g: Group, wanted: BufKey -> bool)
    requires forall k: BufKey :: wanted(k) <==> k.kind == Composition && k.group == g
    ensures CountWhere(BoardKeys(p, h, nameOf), wanted) == if h == g then 1 else 0
  {
    hide Count, Hits;
    var own := BufKey(nameOf(p.units), Composition, h);
    var keys := BoardKeys(p, h, nameOf);
    var ks := if h == g then [own] else [];
    forall k | k in keys && wanted(k) ensures k in ks {
      CountPositive(keys, k);
      BoardCounts(p, h, nameOf, k);
    }
    HitsAreWanted(keys, ks, wanted);
    BoardCounts(p, h, nameOf, own);
    HitsOf(keys, own);
  }

  lemma {:induction false} HitsOf(keys: seq<BufKey>, k: BufKey)
    ensures Hits(keys, [k]) == Count(keys, k) && Hits(keys, []) == 0
  {
    assert [k][..0] == [];
  }

  // ----- single rows -------------------------------------------------------------------------------

  /** The samples of a key that the boards owe. */
  function AppearancesIn(boards: seq<Board>, nameOf: seq<Unit> -> Id, k: BufKey): nat {
    if boards == [] then 0
    else
      var b := boards[|boards| - 1];
      AppearancesIn(boards[..|boards| - 1], nameOf, k) + Appearances(b.player, b.group, nameOf, k)
  }

  lemma {:induction false} PlacementsLength(boards: seq<Board>, nameOf: seq<Unit> -> Id, k: BufKey)
    ensures |Placements(boards, nameOf, k)| == AppearancesIn(boards, nameOf, k)
  {
    if boards != [] {
      hide Count, BoardKeys, Appearances;
      var b := boards[|boards| - 1];
      PlacementsLength(boards[..|boards| - 1], nameOf, k);
      BoardIsCounted(b.player, b.group, nameOf, k);
    }
  }

  /** A group with a sample has a board. */
  lemma {:induction false} SamplesNeedBoards(boards: seq<Board>, nameOf: seq<Unit> -> Id, k: BufKey)
    ensures AppearancesIn(boards, nameOf, k) > 0 ==> NumBoards(boards, k.group) > 0
  {
    if boards != [] { SamplesNeedBoards(boards[..|boards| - 1], nameOf, k); }
  }

  /** A flush has a row for exactly the keys that appeared on some board. Its sample size is the
      number of appearances, and its play rate that number over the boards of the group, but
      one at most. */
  lemma {:induction false} FlushedRow(buffers: Buffers, totals: map<Group, nat>, boards: seq<Board>, nameOf: seq<Unit> -> Id,
                                      rows: seq<Row>, k: BufKey)
    requires Accounts(buffers, totals, boards, nameOf) && Flushed(rows, buffers, totals)
    ensures (exists r <- rows :: r.key == k) <==> AppearancesIn(boards, nameOf, k) > 0
    ensures forall r <- rows :: r.key == k ==>
      && r.sampleSize == AppearancesIn(boards, nameOf, k) && NumBoards(boards, k.group) > 0
      && var rate := r.sampleSize as real / NumBoards(boards, k.group) as real;
        r.playRate == if rate < 1.0 then rate else 1.0
  {
    hide Placements, AppearancesIn, WinRate, Mean, NumBoards;
    PlacementsLength(boards, nameOf, k);
    SamplesNeedBoards(boards, nameOf, k);
    assert Get(buffers, k) == Placements(boards, nameOf, k);
    assert (if k.group in totals then totals[k.group] else 0) == NumBoards(boards, k.group);
    if k in buffers { assert RowOf(k, buffers[k], totals) in rows; }
  }
}
