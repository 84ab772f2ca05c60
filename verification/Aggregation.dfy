/**
 Stat aggregation: from boards to flushed rows (processor/aggregator.py) to one pooled row per
 entity (api/service.py). Rates are exact reals; rounding and formatting are not modelled.
 */
module Aggregation {
  type Id = string

  datatype Kind = Champion | ChampionItem | PlainItem | Augment | Composition
  datatype Group = Group(patch: Id, tier: Id, region: Id)
  datatype BufKey = BufKey(id: Id, kind: Kind, group: Group)
  datatype Unit = Unit(characterId: Id, items: seq<Id>)
  datatype Player = Player(placement: int, units: seq<Unit>, augments: seq<Id>)
  datatype Match = Match(group: Group, players: seq<Player>)

  // ----- what one board contributes --------------------------------------------------------

  /** Keys contributed so far and items already counted on this board. */
  datatype Scan = Scan(keys: seq<BufKey>, seen: set<Id>)

  function AfterItem(s: Scan, u: Unit, item: Id, g: Group): Scan {
    var keys := s.keys + [BufKey(u.characterId + "|" + item, ChampionItem, g)];
    if item in s.seen then Scan(keys, s.seen) else Scan(keys + [BufKey(item, PlainItem, g)], s.seen + {item})
  }

  function AfterItems(s: Scan, u: Unit, j: nat, g: Group): Scan
    requires j <= |u.items|
  {
    if j == 0 then s else AfterItem(AfterItems(s, u, j - 1, g), u, u.items[j - 1], g)
  }

  function AfterUnits(units: seq<Unit>, n: nat, g: Group): Scan
    requires n <= |units|
  {
    if n == 0 then Scan([], {})
    else
      var s, u := AfterUnits(units, n - 1, g), units[n - 1];
      AfterItems(s.(keys := s.keys + [BufKey(u.characterId, Champion, g)]), u, |u.items|, g)
  }

  function AugmentKeys(augments: seq<Id>, g: Group): seq<BufKey> {
    if augments == [] then [] else AugmentKeys(augments[..|augments| - 1], g) + [BufKey(augments[|augments| - 1], Augment, g)]
  }

  /** All keys of a board, in the order they are added; `nameOf` names its composition. */
  function BoardKeys(p: Player, g: Group, nameOf: seq<Unit> -> Id): seq<BufKey> {
    AfterUnits(p.units, |p.units|, g).keys + AugmentKeys(p.augments, g) + [BufKey(nameOf(p.units), Composition, g)]
  }

  function Count(keys: seq<BufKey>, k: BufKey): nat {
    if keys == [] then 0 else Count(keys[..|keys| - 1], k) + if keys[|keys| - 1] == k then 1 else 0
  }

  lemma {:induction false} CountConcat(a: seq<BufKey>, b: seq<BufKey>, k: BufKey)
    ensures Count(a + b, k) == Count(a, k) + Count(b, k)
  {
    if b == [] {
      assert a + b == a;
    } else {
      CountConcat(a, b[..|b| - 1], k);
      assert (a + b)[..|a + b| - 1] == a + b[..|b| - 1];
    }
  }

  lemma {:induction false} CountSnoc(a: seq<BufKey>, x: BufKey, k: BufKey)
    ensures Count(a + [x], k) == Count(a, k) + if x == k then 1 else 0
  {
    assert (a + [x])[..|a|] == a;
  }

  /** An item key is counted once as soon as the item was seen, and never again. */
  ghost predicate ItemsOnce(s: Scan, g: Group) {
    && (forall id :: Count(s.keys, BufKey(id, PlainItem, g)) == if id in s.seen then 1 else 0)
    && (forall k: BufKey :: k.kind == PlainItem && k.group != g ==> Count(s.keys, k) == 0)
    && (forall k: BufKey :: k.kind == Composition ==> Count(s.keys, k) == 0)
  }

  lemma {:induction false} AfterItemOnce(s: Scan, u: Unit, item: Id, g: Group)
    requires ItemsOnce(s, g)
    ensures ItemsOnce(AfterItem(s, u, item, g), g)
  {
    hide Count;
    var pair := BufKey(u.characterId + "|" + item, ChampionItem, g);
    forall k ensures Count(s.keys + [pair], k) == Count(s.keys, k) + if pair == k then 1 else 0 {
      CountSnoc(s.keys, pair, k);
    }
    var plain := BufKey(item, PlainItem, g);
    forall k ensures Count(s.keys + [pair] + [plain], k) == Count(s.keys + [pair], k) + if plain == k then 1 else 0 {
      CountSnoc(s.keys + [pair], plain, k);
    }
  }

  lemma {:induction false} AfterItemsOnce(s: Scan, u: Unit, j: nat, g: Group)
    requires j <= |u.items| && ItemsOnce(s, g)
    ensures ItemsOnce(AfterItems(s, u, j, g), g)
    ensures AfterItems(s, u, j, g).seen == s.seen + set id | id in u.items[..j]
  {
    hide ItemsOnce;
    if j > 0 {
      AfterItemsOnce(s, u, j - 1, g);
      AfterItemOnce(AfterItems(s, u, j - 1, g), u, u.items[j - 1], g);
      assert u.items[..j] == u.items[..j - 1] + [u.items[j - 1]];
    }
  }

  predicate Holds(units: seq<Unit>, n: nat, item: Id)
    requires n <= |units|
  {
    exists i :: 0 <= i < n && item in units[i].items
  }

  lemma {:induction false} AfterUnitsOnce(units: seq<Unit>, n: nat, g: Group)
    requires n <= |units|
    ensures ItemsOnce(AfterUnits(units, n, g), g)
    ensures forall item :: item in AfterUnits(units, n, g).seen <==> Holds(units, n, item)
  {
    hide ItemsOnce, Count, Holds, AfterItems;
    if n == 0 {
      EmptyScan(units, g);
    } else {
      AfterUnitsOnce(units, n - 1, g);
      var s, u := AfterUnits(units, n - 1, g), units[n - 1];
      ChampionOnce(s, u.characterId, g);
      AfterItemsOnce(s.(keys := s.keys + [BufKey(u.characterId, Champion, g)]), u, |u.items|, g);
      assert u.items[..|u.items|] == u.items;
      forall item ensures Holds(units, n, item) <==> Holds(units, n - 1, item) || item in u.items {
        HoldsStep(units, n, item);
      }
    }
  }

  lemma {:induction false} EmptyScan(units: seq<Unit>, g: Group)
    ensures ItemsOnce(Scan([], {}), g) && forall item :: !Holds(units, 0, item)
  {}

  lemma {:induction false} HoldsStep(units: seq<Unit>, n: nat, item: Id)
    requires 0 < n <= |units|
    ensures Holds(units, n, item) <==> Holds(units, n - 1, item) || item in units[n - 1].items
  {}

  lemma {:induction false} ChampionOnce(s: Scan, id: Id, g: Group)
    requires ItemsOnce(s, g)
    ensures ItemsOnce(s.(keys := s.keys + [BufKey(id, Champion, g)]), g)
  {
    hide Count;
    forall k ensures Count(s.keys + [BufKey(id, Champion, g)], k) == Count(s.keys, k) + if BufKey(id, Champion, g) == k then 1 else 0 {
      CountSnoc(s.keys, BufKey(id, Champion, g), k);
    }
  }

  lemma {:induction false} NoAugmentIsItem(augments: seq<Id>, g: Group, k: BufKey)
    requires k.kind != Augment
    ensures Count(AugmentKeys(augments, g), k) == 0
  {
    if augments != [] {
      NoAugmentIsItem(augments[..|augments| - 1], g, k);
      CountSnoc(AugmentKeys(augments[..|augments| - 1], g), BufKey(augments[|augments| - 1], Augment, g), k);
    }
  }

  /** Each board counts once for every distinct item on it, however many units carry the item,
      and exactly once for a composition, its own. */
  lemma {:induction false} BoardCounts(p: Player, g: Group, nameOf: seq<Unit> -> Id, k: BufKey)
    ensures k.kind == PlainItem ==>
      Count(BoardKeys(p, g, nameOf), k) == if k.group == g && Holds(p.units, |p.units|, k.id) then 1 else 0
    ensures k.kind == Composition ==>
      Count(BoardKeys(p, g, nameOf), k) == if k == BufKey(nameOf(p.units), Composition, g) then 1 else 0
  {
    hide Count, AfterUnits, AugmentKeys, Holds;
    AfterUnitsOnce(p.units, |p.units|, g);
    var s, a := AfterUnits(p.units, |p.units|, g), AugmentKeys(p.augments, g);
    CountSnoc(s.keys + a, BufKey(nameOf(p.units), Composition, g), k);
    CountConcat(s.keys, a, k);
    if k.kind == PlainItem || k.kind == Composition { NoAugmentIsItem(p.augments, g, k); }
    if k.kind == PlainItem && k.group == g { assert k == BufKey(k.id, PlainItem, g); }
  }

  // ----- every kind of key, from the board itself -----------------------------------------

  /** Units of a champion on the board. */
  function UnitsNamed(units: seq<Unit>, id: Id): nat {
    if units == [] then 0 else UnitsNamed(units[..|units| - 1], id) + if units[|units| - 1].characterId == id then 1 else 0
  }

  /** Item slots of one unit that pair up to a name. */
  function PairsOn(u: Unit, j: nat, name: Id): nat
    requires j <= |u.items|
  {
    if j == 0 then 0 else PairsOn(u, j - 1, name) + if u.characterId + "|" + u.items[j - 1] == name then 1 else 0
  }

  /** Item slots of all units that do. */
  function PairsNamed(units: seq<Unit>, name: Id): nat {
    if units == [] then 0
    else PairsNamed(units[..|units| - 1], name) + PairsOn(units[|units| - 1], |units[|units| - 1].items|, name)
  }

  function Occurrences(ids: seq<Id>, id: Id): nat {
    if ids == [] then 0 else Occurrences(ids[..|ids| - 1], id) + if ids[|ids| - 1] == id then 1 else 0
  }

  /** How often a board counts for a key: each unit of a champion, each champion-item slot, an item
      once however many units carry it, each augment, and its composition once. */
  function Appearances(p: Player, g: Group, nameOf: seq<Unit> -> Id, k: BufKey): nat {
    if k.group != g then 0
    else
      match k.kind
      case Champion => UnitsNamed(p.units, k.id)
      case ChampionItem => PairsNamed(p.units, k.id)
      case PlainItem => if Holds(p.units, |p.units|, k.id) then 1 else 0
      case Augment => Occurrences(p.augments, k.id)
      case Composition => if nameOf(p.units) == k.id then 1 else 0
  }

  lemma {:induction false} AfterItemCount(s: Scan, u: Unit, item: Id, g: Group, k: BufKey)
    requires k.kind != PlainItem
    ensures Count(AfterItem(s, u, item, g).keys, k) ==
      Count(s.keys, k) + if k.kind == ChampionItem && k.group == g && u.characterId + "|" + item == k.id then 1 else 0
  {
    var pair := BufKey(u.characterId + "|" + item, ChampionItem, g);
    CountSnoc(s.keys, pair, k);
    CountSnoc(s.keys + [pair], BufKey(item, PlainItem, g), k);
  }

  lemma {:induction false} AfterItemsCount(s: Scan, u: Unit, j: nat, g: Group, k: BufKey)
    requires j <= |u.items| && k.kind != PlainItem
    ensures Count(AfterItems(s, u, j, g).keys, k) ==
      Count(s.keys, k) + if k.kind == ChampionItem && k.group == g then PairsOn(u, j, k.id) else 0
  {
    hide Count;
    if j > 0 {
      AfterItemsCount(s, u, j - 1, g, k);
      AfterItemCount(AfterItems(s, u, j - 1, g), u, u.items[j - 1], g, k);
    }
  }

  lemma {:induction false} AfterUnitsCount(units: seq<Unit>, n: nat, g: Group, k: BufKey)
    requires n <= |units| && k.kind != PlainItem
    ensures Count(AfterUnits(units, n, g).keys, k) ==
      if k.group != g then 0
      else if k.kind == Champion then UnitsNamed(units[..n], k.id)
      else if k.kind == ChampionItem then PairsNamed(units[..n], k.id)
      else 0
  {
    hide Count, AfterItems, AfterUnits, UnitsNamed, PairsNamed;
    if n == 0 {
      NoUnits(units, g, k);
    } else {
      AfterUnitsCount(units, n - 1, g, k);
      UnitStep(units, n, g, k);
    }
  }

  lemma {:induction false} NoUnits(units: seq<Unit>, g: Group, k: BufKey)
    ensures Count(AfterUnits(units, 0, g).keys, k) == 0 && UnitsNamed(units[..0], k.id) == 0 && PairsNamed(units[..0], k.id) == 0
  {}

  /** What the last unit adds, to the keys and to the counts. */
  lemma {:induction false} UnitStep(units: seq<Unit>, n: nat, g: Group, k: BufKey)
    requires 0 < n <= |units| && k.kind != PlainItem
    ensures var u := units[n - 1];
      && Count(AfterUnits(units, n, g).keys, k) == Count(AfterUnits(units, n - 1, g).keys, k)
           + (if k == BufKey(u.characterId, Champion, g) then 1 else 0)
           + (if k.kind == ChampionItem && k.group == g then PairsOn(u, |u.items|, k.id) else 0)
      && UnitsNamed(units[..n], k.id) == UnitsNamed(units[..n - 1], k.id) + (if u.characterId == k.id then 1 else 0)
      && PairsNamed(units[..n], k.id) == PairsNamed(units[..n - 1], k.id) + PairsOn(u, |u.items|, k.id)
  {
    hide Count, AfterItems, PairsOn;
    var s, u := AfterUnits(units, n - 1, g), units[n - 1];
    CountSnoc(s.keys, BufKey(u.characterId, Champion, g), k);
    AfterItemsCount(s.(keys := s.keys + [BufKey(u.characterId, Champion, g)]), u, |u.items|, g, k);
    assert units[..n][..n - 1] == units[..n - 1];
  }

  lemma {:induction false} AugmentCount(augments: seq<Id>, g: Group, k: BufKey)
    ensures Count(AugmentKeys(augments, g), k) == if k.kind == Augment && k.group == g then Occurrences(augments, k.id) else 0
  {
    if augments != [] {
      hide Count;
      var n := |augments| - 1;
      AugmentCount(augments[..n], g, k);
      CountSnoc(AugmentKeys(augments[..n], g), BufKey(augments[n], Augment, g), k);
    } else {
      assert Count([], k) == 0;
    }
  }

  /** The keys a board is counted under, for all kinds of keys, from the player's own fields. */
  lemma {:induction false} BoardIsCounted(p: Player, g: Group, nameOf: seq<Unit> -> Id, k: BufKey)
    ensures Count(BoardKeys(p, g, nameOf), k) == Appearances(p, g, nameOf, k)
  {
    if k.kind == PlainItem || k.kind == Composition {
      BoardCounts(p, g, nameOf, k);
    } else {
      hide Count, AfterUnits, AugmentKeys;
      var units, augs := AfterUnits(p.units, |p.units|, g).keys, AugmentKeys(p.augments, g);
      AfterUnitsCount(p.units, |p.units|, g, k);
      AugmentCount(p.augments, g, k);
      CountConcat(units, augs, k);
      CountSnoc(units + augs, BufKey(nameOf(p.units), Composition, g), k);
      assert p.units[..|p.units|] == p.units;
    }
  }

  // ----- buffers --------------------------------------------------------------------------------

  type Buffers = map<BufKey, seq<int>>

  function Get(b: Buffers, k: BufKey): seq<int> {
    if k in b then b[k] else []
  }

  function Added(b: Buffers, k: BufKey, placement: int): Buffers {
    b[k := Get(b, k) + [placement]]
  }

  function AddedAll(b: Buffers, keys: seq<BufKey>, placement: int): Buffers {
    if keys == [] then b else Added(AddedAll(b, keys[..|keys| - 1], placement), keys[|keys| - 1], placement)
  }

  lemma {:induction false} AddedSnoc(b: Buffers, keys: seq<BufKey>, k: BufKey, placement: int)
    ensures AddedAll(b, keys + [k], placement) == Added(AddedAll(b, keys, placement), k, placement)
  {
    assert (keys + [k])[..|keys|] == keys;
  }

  function Repeat(x: int, n: nat): (s: seq<int>)
    ensures |s| == n
  {
    if n == 0 then [] else Repeat(x, n - 1) + [x]
  }

  lemma {:induction false} AddedAllGet(b: Buffers, keys: seq<BufKey>, placement: int, k: BufKey)
    ensures Get(AddedAll(b, keys, placement), k) == Get(b, k) + Repeat(placement, Count(keys, k))
  {
    if keys != [] { AddedAllGet(b, keys[..|keys| - 1], placement, k); }
  }

  datatype Board = Board(group: Group, player: Player)

  /** All samples of a key over the boards seen, in order. */
  ghost function Placements(boards: seq<Board>, nameOf: seq<Unit> -> Id, k: BufKey): seq<int> {
    if boards == [] then []
    else
      var b := boards[|boards| - 1];
      Placements(boards[..|boards| - 1], nameOf, k) + Repeat(b.player.placement, Count(BoardKeys(b.player, b.group, nameOf), k))
  }

  function NumBoards(boards: seq<Board>, g: Group): nat {
    if boards == [] then 0 else NumBoards(boards[..|boards| - 1], g) + if boards[|boards| - 1].group == g then 1 else 0
  }

  /** No item has more samples than there were boards. */
  lemma {:induction false} ItemsBounded(boards: seq<Board>, nameOf: seq<Unit> -> Id, k: BufKey)
    requires k.kind == PlainItem
    ensures |Placements(boards, nameOf, k)| <= NumBoards(boards, k.group)
  {
    if boards != [] {
      hide Count, BoardKeys;
      var b := boards[|boards| - 1];
      ItemsBounded(boards[..|boards| - 1], nameOf, k);
      BoardCounts(b.player, b.group, nameOf, k);
    }
  }

  // ----- the aggregator --------------------------------------------------------------------------

  datatype Row = Row(key: BufKey, winRate: real, avgPlacement: real, playRate: real, sampleSize: int)

  function Wins(ps: seq<int>): nat {
    if ps == [] then 0 else Wins(ps[..|ps| - 1]) + if ps[|ps| - 1] <= 4 then 1 else 0
  }

  function Sum(ps: seq<int>): int {
    if ps == [] then 0 else Sum(ps[..|ps| - 1]) + ps[|ps| - 1]
  }

  function WinRate(ps: seq<int>): real
    requires ps != []
  {
    Wins(ps) as real / |ps| as real
  }

  /** Win rates are shares of top-four finishes: one if all are, zero if none is. */
  lemma {:induction false} WinRateRange(ps: seq<int>)
    requires ps != []
    ensures 0.0 <= WinRate(ps) <= 1.0
    ensures WinRate(ps) == 1.0 <==> forall i :: 0 <= i < |ps| ==> ps[i] <= 4
    ensures WinRate(ps) == 0.0 <==> forall i :: 0 <= i < |ps| ==> ps[i] > 4
  {
    WinsRange(ps);
    ShareRange(Wins(ps), |ps|);
  }

  lemma {:induction false} WinsRange(ps: seq<int>)
    ensures Wins(ps) <= |ps|
    ensures Wins(ps) == |ps| <==> forall i :: 0 <= i < |ps| ==> ps[i] <= 4
    ensures Wins(ps) == 0 <==> forall i :: 0 <= i < |ps| ==> ps[i] > 4
  {
    if ps != [] {
      WinsRange(ps[..|ps| - 1]);
    }
  }

  lemma {:induction false} ShareRange(a: nat, b: nat)
    requires a <= b && b > 0
    ensures 0.0 <= a as real / b as real <= 1.0
    ensures (a as real / b as real == 1.0 <==> a == b) && (a as real / b as real == 0.0 <==> a == 0)
  {
    var q := a as real / b as real;
    assert q * b as real == a as real;
  }

  function Mean(ps: seq<int>): real
    requires ps != []
  {
    Sum(ps) as real / |ps| as real
  }

  function RowOf(k: BufKey, ps: seq<int>, totals: map<Group, nat>): Row
    requires ps != []
  {
    var total := if k.group in totals then totals[k.group] else |ps|;
    var playRate := if total != 0 then |ps| as real / total as real else 0.0;
    Row(k, WinRate(ps), Mean(ps), if playRate < 1.0 then playRate else 1.0, |ps|)
  }

  /** One board: its units with their items, its augments, its composition. */
  method AddBoard(b0: Buffers, p: Player, g: Group, nameOf: seq<Unit> -> Id) returns (b: Buffers)
    ensures b == AddedAll(b0, BoardKeys(p, g, nameOf), p.placement)
  {
    hide Added, AddedAll, AfterUnits, AugmentKeys;
    b := AddUnits(b0, p.units, g, p.placement);
    ghost var keys := AfterUnits(p.units, |p.units|, g).keys;
    b := AddAugments(b0, b, p.augments, g, p.placement, keys);
    AddedSnoc(b0, keys + AugmentKeys(p.augments, g), BufKey(nameOf(p.units), Composition, g), p.placement);
    b := Added(b, BufKey(nameOf(p.units), Composition, g), p.placement);
  }

  method AddUnits(b0: Buffers, units: seq<Unit>, g: Group, placement: int) returns (b: Buffers)
    ensures b == AddedAll(b0, AfterUnits(units, |units|, g).keys, placement)
  {
    hide Added;
    var seen: set<Id> := {};
    b := b0;
    ghost var keys: seq<BufKey> := [];
    var i := 0;
    while i < |units|
      invariant 0 <= i <= |units| && Scan(keys, seen) == AfterUnits(units, i, g)
      invariant b == AddedAll(b0, keys, placement)
    {
      var u := units[i];
      AddedSnoc(b0, keys, BufKey(u.characterId, Champion, g), placement);
      b := Added(b, BufKey(u.characterId, Champion, g), placement);
      keys := keys + [BufKey(u.characterId, Champion, g)];
      b, seen, keys := AddItems(b0, b, u, g, placement, seen, keys);
      i := i + 1;
    }
  }

  method AddAugments(ghost b0: Buffers, b1: Buffers, augments: seq<Id>, g: Group, placement: int, ghost keys1: seq<BufKey>)
    returns (b: Buffers)
    requires b1 == AddedAll(b0, keys1, placement)
    ensures b == AddedAll(b0, keys1 + AugmentKeys(augments, g), placement)
  {
    hide Added, AddedAll;
    b := b1;
    var i := 0;
    ghost var keys := keys1;
    assert augments[..0] == [] && keys1 + AugmentKeys([], g) == keys1;
    while i < |augments|
      invariant 0 <= i <= |augments| && keys == keys1 + AugmentKeys(augments[..i], g)
      invariant b == AddedAll(b0, keys, placement)
    {
      var k := BufKey(augments[i], Augment, g);
      assert augments[..i + 1][..i] == augments[..i];
      AddedSnoc(b0, keys, k, placement);
      b := Added(b, k, placement);
      keys := keys + [k];
      i := i + 1;
    }
    assert augments[..i] == augments;
  }

  method AddItems(ghost b0: Buffers, b1: Buffers, u: Unit, g: Group, placement: int, seen1: set<Id>, ghost keys1: seq<BufKey>)
    returns (b: Buffers, seen: set<Id>, ghost keys: seq<BufKey>)
    requires b1 == AddedAll(b0, keys1, placement)
    ensures Scan(keys, seen) == AfterItems(Scan(keys1, seen1), u, |u.items|, g)
    ensures b == AddedAll(b0, keys, placement)
  {
    hide Added;
    b, seen, keys := b1, seen1, keys1;
    var j := 0;
    while j < |u.items|
      invariant 0 <= j <= |u.items| && Scan(keys, seen) == AfterItems(Scan(keys1, seen1), u, j, g)
      invariant b == AddedAll(b0, keys, placement)
    {
      var item := u.items[j];
      var pair, plain := BufKey(u.characterId + "|" + item, ChampionItem, g), BufKey(item, PlainItem, g);
      AddedSnoc(b0, keys, pair, placement);
      b := Added(b, pair, placement);
      keys := keys + [pair];
      if item !in seen {
        seen := seen + {item};
        AddedSnoc(b0, keys, plain, placement);
        b := Added(b, plain, placement);
        keys := keys + [plain];
      }
      j := j + 1;
    }
  }

  /** The buffers hold exactly the samples of the boards seen since the last flush. */
  ghost predicate Accounts(b: Buffers, totals: map<Group, nat>, boards: seq<Board>, nameOf: seq<Unit> -> Id) {
    && (forall k :: Get(b, k) == Placements(boards, nameOf, k))
    && (forall k <- b.Keys :: b[k] != [])
    && (forall g :: (if g in totals then totals[g] else 0) == NumBoards(boards, g))
  }

  lemma {:induction false} AddedKeepsNonEmpty(b: Buffers, keys: seq<BufKey>, placement: int)
    requires forall k <- b.Keys :: b[k] != []
    ensures forall k <- AddedAll(b, keys, placement).Keys :: AddedAll(b, keys, placement)[k] != []
  {
    if keys != [] { AddedKeepsNonEmpty(b, keys[..|keys| - 1], placement); }
  }

  lemma {:induction false} BoardAccounted(b: Buffers, totals: map<Group, nat>, boards: seq<Board>, nameOf: seq<Unit> -> Id, p: Player, g: Group)
    requires Accounts(b, totals, boards, nameOf)
    ensures Accounts(AddedAll(b, BoardKeys(p, g, nameOf), p.placement),
                     totals[g := (if g in totals then totals[g] else 0) + 1], boards + [Board(g, p)], nameOf)
  {
    hide Count, BoardKeys, AddedAll;
    var boards' := boards + [Board(g, p)];
    assert boards'[..|boards|] == boards;
    var keys := BoardKeys(p, g, nameOf);
    AddedKeepsNonEmpty(b, keys, p.placement);
    forall k ensures Get(AddedAll(b, keys, p.placement), k) == Placements(boards', nameOf, k) {
      AddedAllGet(b, keys, p.placement, k);
      assert Get(b, k) == Placements(boards, nameOf, k);
    }
  }

  function BoardsOf(m: Match): seq<Board> {
    seq(|m.players|, i requires 0 <= i < |m.players| => Board(m.group, m.players[i]))
  }

  class StatAggregator {
    const nameOf: seq<Unit> -> Id
    var buffers: Buffers
    var totals: map<Group, nat>
    var matchesSeen: nat
    /** The boards processed since the last flush. */
    ghost var boards: seq<Board>

    ghost predicate Valid()
      reads this
    {
      Accounts(buffers, totals, boards, nameOf)
    }

    constructor (nameOf: seq<Unit> -> Id)
      ensures Valid() && boards == [] && matchesSeen == 0 && this.nameOf == nameOf
    {
      this.nameOf := nameOf;
      buffers, totals, matchesSeen, boards := map[], map[], 0, [];
    }

    method ProcessMatch(m: Match)
      requires Valid()
      modifies this
      ensures Valid() && boards == old(boards) + BoardsOf(m) && matchesSeen == old(matchesSeen) + 1
    {
      hide Accounts;
      var i := 0;
      ghost var before := boards;
      while i < |m.players|
        invariant 0 <= i <= |m.players| && Valid() && matchesSeen == old(matchesSeen)
        invariant boards == before + BoardsOf(m)[..i]
      {
        var p := m.players[i];
        BoardAccounted(buffers, totals, boards, nameOf, p, m.group);
        totals := totals[m.group := (if m.group in totals then totals[m.group] else 0) + 1];
        buffers := AddBoard(buffers, p, m.group, nameOf);
        boards := boards + [Board(m.group, p)];
        i := i + 1;
      }
      matchesSeen := matchesSeen + 1;
    }

    /** flush: one row per key with samples, then start over. */
    method Flush() returns (rows: seq<Row>)
      requires Valid()
      modifies this
      ensures Valid() && boards == [] && matchesSeen == 0
      ensures Flushed(rows, old(buffers), old(totals))
    {
      NonEmptyBuffers(buffers, totals, boards, nameOf);
      hide Accounts, RowOf, Flushed;
      rows := FlushRows(buffers, totals);
      NothingAccounted(nameOf);
      buffers, totals, matchesSeen, boards := map[], map[], 0, [];
    }
  }

  lemma {:induction false} NonEmptyBuffers(b: Buffers, totals: map<Group, nat>, boards: seq<Board>, nameOf: seq<Unit> -> Id)
    requires Accounts(b, totals, boards, nameOf)
    ensures forall k <- b.Keys :: b[k] != []
  {}

  lemma {:induction false} NothingAccounted(nameOf: seq<Unit> -> Id)
    ensures Accounts(map[], map[], [], nameOf)
  {}

  /** One row for every key with samples, and no others. */
  ghost predicate Flushed(rows: seq<Row>, buffers: Buffers, totals: map<Group, nat>) {
    && (forall k <- buffers.Keys :: buffers[k] != [] && RowOf(k, buffers[k], totals) in rows)
    && (forall i :: 0 <= i < |rows| ==> rows[i].key in buffers && rows[i] == RowOf(rows[i].key, buffers[rows[i].key], totals))
    && (forall i, j :: 0 <= i < j < |rows| ==> rows[i].key != rows[j].key)
  }

  method FlushRows(buffers: Buffers, totals: map<Group, nat>) returns (rows: seq<Row>)
    requires forall k <- buffers.Keys :: buffers[k] != []
    ensures Flushed(rows, buffers, totals)
  {
    hide WinRate, Mean;
    rows := [];
    var left := buffers.Keys;
    while left != {}
      invariant left <= buffers.Keys
      invariant forall k <- buffers.Keys - left :: RowOf(k, buffers[k], totals) in rows
      invariant forall i :: 0 <= i < |rows| ==>
        rows[i].key in buffers && rows[i].key !in left && rows[i] == RowOf(rows[i].key, buffers[rows[i].key], totals)
      invariant forall i, j :: 0 <= i < j < |rows| ==> rows[i].key != rows[j].key
      decreases |left|
    {
      var k :| k in left;
      rows := rows + [RowOf(k, buffers[k], totals)];
      left := left - {k};
    }
  }

  // ----- pooling rows per entity ------------------------------------------------------------------

  datatype Pooled = Pooled(id: Id, winRate: real, avgPlacement: real, playRate: real, sampleSize: int)

  function RowsFor(rows: seq<Row>, id: Id): seq<Row> {
    if rows == [] then []
    else
      var rest, r := RowsFor(rows[..|rows| - 1], id), rows[|rows| - 1];
      if r.key.id == id then rest + [r] else rest
  }

  function Samples(es: seq<Row>): int {
    if es == [] then 0 else Samples(es[..|es| - 1]) + es[|es| - 1].sampleSize
  }

  function WinRateOf(r: Row): real { r.winRate }
  function PlacementOf(r: Row): real { r.avgPlacement }
  function PlayRateOf(r: Row): real { r.playRate }

  /** Sum of a rate weighted by sample size. */
  function Weighted(es: seq<Row>, rate: Row -> real): real {
    if es == [] then 0.0 else Weighted(es[..|es| - 1], rate) + rate(es[|es| - 1]) * es[|es| - 1].sampleSize as real
  }

  function PoolOf(id: Id, es: seq<Row>): Pooled
    requires Samples(es) != 0
  {
    var total := Samples(es) as real;
    Pooled(id, Weighted(es, WinRateOf) / total, Weighted(es, PlacementOf) / total,
           Weighted(es, PlayRateOf) / total, Samples(es))
  }

  function Flatten(pss: seq<seq<int>>): seq<int> {
    if pss == [] then [] else Flatten(pss[..|pss| - 1]) + pss[|pss| - 1]
  }

  lemma {:induction false} WinsConcat(a: seq<int>, b: seq<int>)
    ensures Wins(a + b) == Wins(a) + Wins(b)
  {
    if b == [] {
      assert a + b == a;
    } else {
      WinsConcat(a, b[..|b| - 1]);
      assert (a + b)[..|a + b| - 1] == a + b[..|b| - 1];
    }
  }

  lemma {:induction false} SumConcat(a: seq<int>, b: seq<int>)
    ensures Sum(a + b) == Sum(a) + Sum(b)
  {
    if b == [] {
      assert a + b == a;
    } else {
      SumConcat(a, b[..|b| - 1]);
      assert (a + b)[..|a + b| - 1] == a + b[..|b| - 1];
    }
  }

  lemma {:induction false} QuotientTimes(x: real, y: real)
    requires y != 0.0
    ensures (x / y) * y == x
  {}

  /** Row `i` was computed from the raw placements `pss[i]`. */
  ghost predicate Describe(es: seq<Row>, pss: seq<seq<int>>) {
    && |es| == |pss|
    && forall i :: 0 <= i < |es| ==>
         && pss[i] != [] && es[i].sampleSize == |pss[i]|
         && es[i].winRate == WinRate(pss[i]) && es[i].avgPlacement == Mean(pss[i])
  }

  /** The last row adds its wins and its placements to the weighted sums. */
  lemma {:induction false} WeightedStep(es: seq<Row>, pss: seq<seq<int>>)
    requires Describe(es, pss) && es != []
    ensures var n := |es| - 1;
      && Weighted(es, WinRateOf) == Weighted(es[..n], WinRateOf) + Wins(pss[n]) as real
      && Weighted(es, PlacementOf) == Weighted(es[..n], PlacementOf) + Sum(pss[n]) as real
  {
    hide Wins, Sum;
    var n := |es| - 1;
    QuotientTimes(Wins(pss[n]) as real, |pss[n]| as real);
    QuotientTimes(Sum(pss[n]) as real, |pss[n]| as real);
    assert WinRateOf(es[n]) * es[n].sampleSize as real == Wins(pss[n]) as real;
    assert PlacementOf(es[n]) * es[n].sampleSize as real == Sum(pss[n]) as real;
  }

  lemma {:induction false} DescribeInit(es: seq<Row>, pss: seq<seq<int>>)
    requires Describe(es, pss) && es != []
    ensures Describe(es[..|es| - 1], pss[..|es| - 1]) && |pss| == |es| && es[|es| - 1].sampleSize == |pss[|es| - 1]|
  {
    hide WinRate, Mean;
  }

  lemma {:induction false} WeightedTotals(es: seq<Row>, pss: seq<seq<int>>)
    requires Describe(es, pss)
    ensures Samples(es) == |Flatten(pss)|
    ensures Weighted(es, WinRateOf) == Wins(Flatten(pss)) as real
    ensures Weighted(es, PlacementOf) == Sum(Flatten(pss)) as real
  {
    if es == [] {
      assert pss == [];
    } else {
      hide Wins, Sum, WinRateOf, PlacementOf, Describe, Weighted;
      var n := |es| - 1;
      DescribeInit(es, pss);
      WeightedTotals(es[..n], pss[..n]);
      WinsConcat(Flatten(pss[..n]), pss[n]);
      SumConcat(Flatten(pss[..n]), pss[n]);
      WeightedStep(es, pss);
    }
  }

  /** Pooling loses nothing: the sample-weighted rows of an entity give exactly the win rate and
      the mean placement of all its raw placements taken together. */
  lemma {:induction false} PoolingIsExact(id: Id, es: seq<Row>, pss: seq<seq<int>>)
    requires Describe(es, pss) && es != []
    ensures Samples(es) != 0 && Flatten(pss) != []
    ensures var p := PoolOf(id, es);
      p.winRate == WinRate(Flatten(pss)) && p.avgPlacement == Mean(Flatten(pss)) && p.sampleSize == |Flatten(pss)|
  {
    WeightedTotals(es, pss);
    var n := |pss| - 1;
    assert |Flatten(pss)| == |Flatten(pss[..n])| + |pss[n]|;
  }

  /** Pooled rates are averages: they stay within the bounds of the rows' rates, for the play rate
      as for the others. */
  lemma {:induction false} PooledPlayRateRange(id: Id, es: seq<Row>, lo: real, hi: real)
    requires Samples(es) != 0
    requires forall i :: 0 <= i < |es| ==> es[i].sampleSize >= 0 && lo <= es[i].playRate <= hi
    ensures lo <= PoolOf(id, es).playRate <= hi
  {
    WeightedRange(es, PlayRateOf, lo, hi);
    QuotientRange(Weighted(es, PlayRateOf), Samples(es) as real, lo, hi);
  }

  lemma {:induction false} WeightedRange(es: seq<Row>, rate: Row -> real, lo: real, hi: real)
    requires forall i :: 0 <= i < |es| ==> es[i].sampleSize >= 0 && lo <= rate(es[i]) <= hi
    ensures Samples(es) >= 0
    ensures lo * Samples(es) as real <= Weighted(es, rate) <= hi * Samples(es) as real
  {
    if es != [] {
      var n := |es| - 1;
      WeightedRange(es[..n], rate, lo, hi);
      RangeStep(Weighted(es[..n], rate), rate(es[n]), Samples(es[..n]), es[n].sampleSize, lo, hi);
    }
  }

  lemma {:induction false} RangeStep(w: real, x: real, t: int, s: int, lo: real, hi: real)
    requires t >= 0 && s >= 0 && lo <= x <= hi && lo * t as real <= w <= hi * t as real
    ensures lo * (t + s) as real <= w + x * s as real <= hi * (t + s) as real
  {
    var a, b := t as real, s as real;
    ScaleRange(x, b, lo, hi);
    assert (t + s) as real == a + b;
    assert lo * (a + b) == lo * a + lo * b && hi * (a + b) == hi * a + hi * b;
  }

  lemma {:induction false} ScaleRange(x: real, s: real, lo: real, hi: real)
    requires s >= 0.0 && lo <= x <= hi
    ensures lo * s <= x * s <= hi * s
  {}

  lemma {:induction false} QuotientRange(x: real, y: real, lo: real, hi: real)
    requires y > 0.0 && lo * y <= x <= hi * y
    ensures lo <= x / y <= hi
  {
    var q := x / y;
    assert q * y == x;
  }

  method AggregateByEntity(rows: seq<Row>) returns (out: seq<Pooled>)
    ensures forall p <- out :: Samples(RowsFor(rows, p.id)) != 0 && p == PoolOf(p.id, RowsFor(rows, p.id))
    ensures forall i, j :: 0 <= i < j < |out| ==> out[i].id != out[j].id
    ensures forall r <- rows :: Samples(RowsFor(rows, r.key.id)) != 0 ==> PoolOf(r.key.id, RowsFor(rows, r.key.id)) in out
  {
    var groups, order := GroupRows(rows);
    hide RowsFor, PoolOf, Samples;
    out := [];
    var i := 0;
    while i < |order|
      invariant 0 <= i <= |order|
      invariant forall p <- out :: p.id in order[..i] && Samples(RowsFor(rows, p.id)) != 0 && p == PoolOf(p.id, RowsFor(rows, p.id))
      invariant forall a, b :: 0 <= a < b < |out| ==> out[a].id != out[b].id
      invariant forall j :: 0 <= j < i && Samples(RowsFor(rows, order[j])) != 0 ==> PoolOf(order[j], RowsFor(rows, order[j])) in out
    {
      var id := order[i];
      var es := groups[id];
      var total := Samples(es);
      if total != 0 {
        PoolId(id, es);
        out := out + [PoolOf(id, es)];
      }
      i := i + 1;
    }
  }

  lemma {:induction false} PoolId(id: Id, es: seq<Row>)
    requires Samples(es) != 0
    ensures PoolOf(id, es).id == id
  {}

  /** The grouping dictionary, in insertion order. */
  method GroupRows(rows: seq<Row>) returns (groups: map<Id, seq<Row>>, order: seq<Id>)
    ensures forall id <- order :: id in groups && groups[id] == RowsFor(rows, id)
    ensures forall i, j :: 0 <= i < j < |order| ==> order[i] != order[j]
    ensures forall r <- rows :: r.key.id in order
  {
    groups, order := map[], [];
    var n := 0;
    while n < |rows|
      invariant 0 <= n <= |rows|
      invariant forall id :: (id in order <==> id in groups)
      invariant forall id <- groups.Keys :: groups[id] == RowsFor(rows[..n], id)
      invariant forall id :: id !in groups ==> RowsFor(rows[..n], id) == []
      invariant forall i, j :: 0 <= i < j < |order| ==> order[i] != order[j]
      invariant forall i :: 0 <= i < n ==> rows[i].key.id in order
    {
      var r := rows[n];
      assert rows[..n + 1][..n] == rows[..n];
      if r.key.id in groups {
        groups := groups[r.key.id := groups[r.key.id] + [r]];
      } else {
        groups := groups[r.key.id := [r]];
        order := order + [r.key.id];
      }
      n := n + 1;
    }
    assert rows[..n] == rows;
  }
}
