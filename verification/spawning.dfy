/** Weighted spawn tables and entity placement (procgen.py `item_chances`, `enemy_chances`,
    `get_entities_at_random`, `place_entities`). Random numbers are explicit draws. */
module Spawning {
  import opened Common
  import opened Grid
  import opened Rooms

  /** The kinds of things the tables can produce. */
  datatype Kind =
    | HealthPotion | ChainMail | Box | ConfusionScroll | LightningScroll | Sword
    | FireballScroll | BurlyArmor | CreakingArmor
    | Orc | BroomTroll | Troll | ThwackingOrc | BurningOrc | ResoluteOrc
    | KnurledGoblin | MusculousGoblin | SatyricGoblin | InsuperableTroll

  /** One row of a table: from this floor on, these kinds get these weights. */
  datatype Tier = Tier(key: int, entries: seq<(Kind, int)>)

  const ItemChances: seq<Tier> := [
    Tier(0, [(HealthPotion, 35), (ChainMail, 25), (Box, 35)]),
    Tier(2, [(ConfusionScroll, 10)]),
    Tier(4, [(LightningScroll, 25), (Sword, 5)]),
    Tier(6, [(FireballScroll, 25), (ChainMail, 15)]),
    Tier(8, [(BurlyArmor, 10), (CreakingArmor, 5)])
  ]

  /** The monster table, without the `Gremlin` entry that names a class entity.py lacks. */
  const EnemyChances: seq<Tier> := [
    Tier(0, [(Orc, 20)]),
    Tier(3, [(BroomTroll, 85)]),
    Tier(5, [(Troll, 30)]),
    Tier(7, [(Troll, 60)]),
    Tier(8, [(ThwackingOrc, 40)]),
    Tier(9, [(BurningOrc, 40)]),
    Tier(10, [(ResoluteOrc, 40)]),
    Tier(11, [(KnurledGoblin, 40)]),
    Tier(12, [(MusculousGoblin, 40)]),
    Tier(13, [(SatyricGoblin, 40)]),
    Tier(14, [(InsuperableTroll, 40)])
  ]

  /** `max_items_by_floor` and `max_monsters_by_floor` are declared but never read. */

  // ---------------------------------------------------------------- the weight dictionary

  /** A Python dict from kind to weight, in insertion order. */
  type Weights = seq<(Kind, int)>

  predicate UniqueKinds(d: Weights)
  {
    forall i, j | 0 <= i < j < |d| :: d[i].0 != d[j].0
  }

  /** The keys of a dictionary (or of a row's entries), in order. */
  function Keys(d: Weights): (r: seq<Kind>)
    ensures |r| == |d| && forall i | 0 <= i < |d| :: r[i] == d[i].0
  {
    seq(|d|, i requires 0 <= i < |d| => d[i].0)
  }

  /** `d[k] = w`: an existing key keeps its place and takes the new weight; a new key is appended. */
  function Put(d: Weights, k: Kind, w: int): (r: Weights)
    requires UniqueKinds(d)
    ensures UniqueKinds(r)
    ensures k in Keys(d) ==> |r| == |d|
    ensures k !in Keys(d) ==> r == d + [(k, w)]
    ensures forall i | 0 <= i < |d| :: r[i] == (if d[i].0 == k then (k, w) else d[i])
    ensures forall c :: c in Keys(r) <==> c in Keys(d) || c == k
  {
    if k in Keys(d) then
      var r := seq(|d|, i requires 0 <= i < |d| => if d[i].0 == k then (k, w) else d[i]);
      assert Keys(r) == Keys(d);
      r
    else
      var r := d + [(k, w)];
      assert Keys(r) == Keys(d) + [k];
      r
  }

  /** Inserting the entries of one row, in order. */
  function PutAll(d: Weights, es: seq<(Kind, int)>): (r: Weights)
    requires UniqueKinds(d)
    ensures UniqueKinds(r)
    ensures forall c :: c in Keys(r) <==> c in Keys(d) || c in Keys(es)
    decreases |es|
  {
    if es == [] then d
    else
      assert Keys(es) == [es[0].0] + Keys(es[1..]);
      PutAll(Put(d, es[0].0, es[0].1), es[1..])
  }

  /** The rows the loop reads: up to (not including) the first key above the floor (`break`). */
  function Reached(t: seq<Tier>, floor: int): (r: seq<Tier>)
    ensures |r| <= |t| && r == t[..|r|]
    ensures forall i | 0 <= i < |r| :: r[i].key <= floor
    ensures |r| < |t| ==> t[|r|].key > floor
  {
    if t == [] || t[0].key > floor then [] else [t[0]] + Reached(t[1..], floor)
  }

  /** Every kind the given rows name, in order. */
  function Named(rows: seq<Tier>): seq<Kind>
  {
    if rows == [] then [] else Keys(rows[0].entries) + Named(rows[1..])
  }

  function Fold(d: Weights, rows: seq<Tier>): (r: Weights)
    requires UniqueKinds(d)
    ensures UniqueKinds(r)
    ensures forall c :: c in Keys(r) <==> c in Keys(d) || c in Named(rows)
    decreases |rows|
  {
    if rows == [] then d else Fold(PutAll(d, rows[0].entries), rows[1..])
  }

  /** The dictionary `entity_weighted_chances` built for a floor: a kind is in it iff a row the
      loop reaches names it. */
  function Eligible(t: seq<Tier>, floor: int): (r: Weights)
    ensures UniqueKinds(r)
    ensures forall c :: c in Keys(r) <==> c in Named(Reached(t, floor))
  {
    Fold([], Reached(t, floor))
  }

  /** A later row overrides an earlier weight for the same kind. */
  lemma LaterRowOverrides(d: Weights, k: Kind, w1: int, w2: int)
    requires UniqueKinds(d)
    ensures Put(Put(d, k, w1), k, w2) == Put(d, k, w2)
  {
    if k in Keys(d) { OverrideKnown(d, k, w1, w2); } else { OverrideNew(d, k, w1, w2); }
  }

  lemma OverrideKnown(d: Weights, k: Kind, w1: int, w2: int)
    requires UniqueKinds(d) && k in Keys(d)
    ensures Put(Put(d, k, w1), k, w2) == Put(d, k, w2)
  {
    var m := Put(d, k, w1);
    var a := Put(m, k, w2);
    var b := Put(d, k, w2);
    assert k in Keys(m);
    assert |a| == |m| == |d| == |b|;
    forall i | 0 <= i < |d| ensures a[i] == b[i] {
      assert m[i].0 == k <==> d[i].0 == k;
    }
  }

  lemma OverrideNew(d: Weights, k: Kind, w1: int, w2: int)
    requires UniqueKinds(d) && k !in Keys(d)
    ensures Put(Put(d, k, w1), k, w2) == Put(d, k, w2)
  {
    var m := Put(d, k, w1);
    var a := Put(m, k, w2);
    var b := Put(d, k, w2);
    assert m == d + [(k, w1)] && b == d + [(k, w2)];
    assert k in Keys(m);
    assert |a| == |m|;
    forall i | 0 <= i < |m| ensures a[i] == b[i] {
      if i < |d| { assert m[i] == d[i]; }
    }
  }

  /** On the tables as written every kind a floor reaches has been reached by floor `floor`
      only: no row above the floor contributes. */
  lemma TablesAreSorted()
    ensures forall i, j | 0 <= i < j < |ItemChances| :: ItemChances[i].key < ItemChances[j].key
    ensures forall i, j | 0 <= i < j < |EnemyChances| :: EnemyChances[i].key < EnemyChances[j].key
  {
  }

  /** The rows a floor reaches are exactly those whose key is at most the floor, for sorted tables. */
  lemma {:induction false} ReachedIsKeysUpToFloor(t: seq<Tier>, floor: int, i: nat)
    requires forall a, b | 0 <= a < b < |t| :: t[a].key < t[b].key
    requires i < |t|
    ensures t[i].key <= floor <==> i < |Reached(t, floor)|
    decreases |t|
  {
    if t[0].key <= floor && i > 0 {
      ReachedIsKeysUpToFloor(t[1..], floor, i - 1);
    }
  }

  // ---------------------------------------------------------------- choices

  function Total(d: Weights): int
  {
    if d == [] then 0 else Total(d[..|d| - 1]) + d[|d| - 1].1
  }

  /** The cumulative weight of the first `n` entries. */
  function Cum(d: Weights, n: nat): int
    requires n <= |d|
  {
    Total(d[..n])
  }

  predicate NonNegative(d: Weights)
  {
    forall i | 0 <= i < |d| :: d[i].1 >= 0
  }

  /** The position `bisect_right(cum_weights, ticket)` finds: the first entry whose cumulative
      weight exceeds the ticket. */
  function PickFrom(d: Weights, ticket: int, i: nat): (r: nat)
    requires i < |d| && 0 <= ticket < Total(d) && NonNegative(d) && ticket >= Cum(d, i)
    ensures i <= r < |d|
    ensures Cum(d, r) <= ticket < Cum(d, r + 1)
    ensures d[r].1 > 0
    decreases |d| - i
  {
    assert d[..i + 1][..i] == d[..i];
    assert i + 1 == |d| ==> d[..i + 1] == d;
    if ticket < Cum(d, i + 1) || i + 1 == |d| then i
    else PickFrom(d, ticket, i + 1)
  }

  /** One draw of `choices(population, weights)`, given the ticket `random() * total` rounds down to. */
  function Pick(d: Weights, ticket: int): (r: Kind)
    requires 0 <= ticket < Total(d) && NonNegative(d) && |d| > 0
    ensures exists i | 0 <= i < |d| :: d[i].0 == r && d[i].1 > 0
  {
    assert d[..0] == [];
    var i := PickFrom(d, ticket, 0);
    d[i].0
  }

  /** `get_entities_at_random(table, number, floor)`: exactly `number` draws, one per ticket,
      each a kind the floor reaches with positive weight. An empty dictionary is the
      `IndexError` of `cum_weights[-1]` and a zero total is `choices`' `ValueError`. */
  function GetEntitiesAtRandom(t: seq<Tier>, floor: int, tickets: seq<nat>): (r: Result<seq<Kind>>)
    requires NonNegative(Eligible(t, floor))
    ensures Eligible(t, floor) == [] ==> r.Err? && r.failure.Fault?
    ensures Eligible(t, floor) != [] && Total(Eligible(t, floor)) > 0 ==> r.Ok?
    ensures r.Ok? ==> |r.value| == |tickets|
    ensures r.Ok? ==> forall i | 0 <= i < |r.value| ::
      r.value[i] in Named(Reached(t, floor)) && WeightIn(Eligible(t, floor), r.value[i]) > 0
  {
    var d := Eligible(t, floor);
    if d == [] then Err(Fault("list index out of range"))
    else if Total(d) <= 0 then Err(Fault("Total of weights must be greater than zero"))
    else
      var r := seq(|tickets|, i requires 0 <= i < |tickets| => Pick(d, tickets[i] % Total(d)));
      assert forall i | 0 <= i < |r| :: r[i] in Keys(d) && WeightIn(d, r[i]) > 0 by {
        forall i | 0 <= i < |r| ensures r[i] in Keys(d) && WeightIn(d, r[i]) > 0 {
          var j :| 0 <= j < |d| && d[j].0 == r[i] && d[j].1 > 0;
          WeightInAt(d, j);
        }
      }
      Ok(r)
  }

  /** The weight stored for a kind in a dictionary with unique kinds. */
  function WeightIn(d: Weights, k: Kind): int
  {
    if d == [] then 0 else if d[0].0 == k then d[0].1 else WeightIn(d[1..], k)
  }

  lemma {:induction false} WeightInAt(d: Weights, j: nat)
    requires UniqueKinds(d) && j < |d|
    ensures WeightIn(d, d[j].0) == d[j].1
    decreases |d|
  {
    if j > 0 {
      assert d[0].0 != d[j].0;
      WeightInAt(d[1..], j - 1);
    }
  }

  /** Both tables have only positive weights. */
  predicate PositiveRows(t: seq<Tier>)
  {
    forall i, j | 0 <= i < |t| && 0 <= j < |t[i].entries| :: t[i].entries[j].1 > 0
  }

  lemma {:induction false} PutKeepsPositive(d: Weights, k: Kind, w: int)
    requires UniqueKinds(d) && (forall i | 0 <= i < |d| :: d[i].1 > 0) && w > 0
    ensures forall i | 0 <= i < |Put(d, k, w)| :: Put(d, k, w)[i].1 > 0
  {
    var r := Put(d, k, w);
    if k !in Keys(d) {
      assert r == d + [(k, w)];
    }
    forall i | 0 <= i < |r| ensures r[i].1 > 0 {
      if i < |d| { assert r[i] == (if d[i].0 == k then (k, w) else d[i]); }
    }
  }

  lemma {:induction false} FoldKeepsPositive(d: Weights, rows: seq<Tier>)
    requires UniqueKinds(d) && (forall i | 0 <= i < |d| :: d[i].1 > 0) && PositiveRows(rows)
    ensures forall i | 0 <= i < |Fold(d, rows)| :: Fold(d, rows)[i].1 > 0
    decreases |rows|
  {
    if rows != [] {
      var d1 := PutAll(d, rows[0].entries);
      PutAllKeepsPositive(d, rows[0].entries);
      assert PositiveRows(rows[1..]) by {
        forall i, j | 0 <= i < |rows[1..]| && 0 <= j < |rows[1..][i].entries|
          ensures rows[1..][i].entries[j].1 > 0 {
          assert rows[1..][i] == rows[i + 1];
        }
      }
      FoldKeepsPositive(d1, rows[1..]);
    }
  }

  lemma {:induction false} PutAllKeepsPositive(d: Weights, es: seq<(Kind, int)>)
    requires UniqueKinds(d) && (forall i | 0 <= i < |d| :: d[i].1 > 0)
    requires forall j | 0 <= j < |es| :: es[j].1 > 0
    ensures forall i | 0 <= i < |PutAll(d, es)| :: PutAll(d, es)[i].1 > 0
    decreases |es|
  {
    if es != [] {
      PutKeepsPositive(d, es[0].0, es[0].1);
      PutAllKeepsPositive(Put(d, es[0].0, es[0].1), es[1..]);
    }
  }

  lemma {:induction false} PositiveTotal(d: Weights)
    requires |d| > 0 && forall i | 0 <= i < |d| :: d[i].1 > 0
    ensures Total(d) > 0
    decreases |d|
  {
    if |d| > 1 {
      PositiveTotal(d[..|d| - 1]);
    }
  }

  /** On every floor from 0 up both tables produce draws: never an error. */
  lemma ItemTableNeverFails(floor: int, tickets: seq<nat>)
    requires floor >= 0
    ensures NonNegative(Eligible(ItemChances, floor))
    ensures GetEntitiesAtRandom(ItemChances, floor, tickets).Ok?
  {
    assert PositiveRows(ItemChances);
    TableNeverFails(ItemChances, floor, tickets);
  }

  lemma EnemyTableNeverFails(floor: int, tickets: seq<nat>)
    requires floor >= 0
    ensures NonNegative(Eligible(EnemyChances, floor))
    ensures GetEntitiesAtRandom(EnemyChances, floor, tickets).Ok?
  {
    assert PositiveRows(EnemyChances);
    TableNeverFails(EnemyChances, floor, tickets);
  }

  lemma TableNeverFails(t: seq<Tier>, floor: int, tickets: seq<nat>)
    requires PositiveRows(t) && |t| > 0 && t[0].key <= floor && |t[0].entries| > 0
    ensures NonNegative(Eligible(t, floor))
    ensures GetEntitiesAtRandom(t, floor, tickets).Ok?
  {
    var rows := Reached(t, floor);
    assert rows[0] == t[0];
    assert PositiveRows(rows) by {
      forall i, j | 0 <= i < |rows| && 0 <= j < |rows[i].entries| ensures rows[i].entries[j].1 > 0 {
        assert rows[i] == t[i];
      }
    }
    FoldKeepsPositive([], rows);
    var d := Eligible(t, floor);
    assert t[0].entries[0].0 in Keys(rows[0].entries);
    assert t[0].entries[0].0 in Named(rows);
    assert |d| > 0;
    PositiveTotal(d);
  }

  // ---------------------------------------------------------------- place_entities

  /** A spawned entity: what and where. */
  datatype Spawn = Spawn(kind: Kind, loc: Loc)

  /** `randint(room.x1 + 1, room.x2 - 1), randint(room.y1 + 1, room.y2 - 1)`. */
  predicate SpawnCell(room: Room, l: Loc)
  {
    room.x1 + 1 <= l.x <= room.x2 - 1 && room.y1 + 1 <= l.y <= room.y2 - 1
  }

  /** Draw `k` finds its cell free: no entity was there before the loop and no earlier draw
      picked the same cell (an earlier draw of that cell either spawned there or was itself
      blocked by an entity on it). */
  predicate FreeDraw(occupied: seq<Loc>, cells: seq<Loc>, k: nat)
    requires k < |cells|
  {
    cells[k] !in occupied && cells[k] !in cells[..k]
  }

  /** Every draw that finds its cell free spawns its own kind there. */
  predicate SpawnsEveryFreeDraw(occupied: seq<Loc>, kinds: seq<Kind>, cells: seq<Loc>, r: seq<Spawn>)
    requires |cells| == |kinds|
  {
    forall k | 0 <= k < |kinds| :: FreeDraw(occupied, cells, k) ==> Spawn(kinds[k], cells[k]) in r
  }

  /** Every spawn is some draw's kind on that draw's cell, for a draw that found its cell free. */
  predicate SpawnsOnlyFreeDraws(occupied: seq<Loc>, kinds: seq<Kind>, cells: seq<Loc>, r: seq<Spawn>)
    requires |cells| == |kinds|
  {
    forall i | 0 <= i < |r| :: exists k | 0 <= k < |kinds| ::
      r[i] == Spawn(kinds[k], cells[k]) && FreeDraw(occupied, cells, k)
  }

  /** The spawning loop of `place_entities`: kind `kinds[i]` goes to the drawn cell `cells[i]`
      unless an entity (already there, or spawned earlier in the loop) holds that cell. */
  function PlaceEntities(occupied: seq<Loc>, kinds: seq<Kind>, cells: seq<Loc>): (r: seq<Spawn>)
    requires |cells| == |kinds|
    ensures |r| <= |kinds|
    ensures forall i | 0 <= i < |r| :: r[i].loc !in occupied && r[i].loc in cells && r[i].kind in kinds
    ensures forall i, j | 0 <= i < j < |r| :: r[i].loc != r[j].loc
    ensures SpawnsEveryFreeDraw(occupied, kinds, cells, r)
    ensures SpawnsOnlyFreeDraws(occupied, kinds, cells, r)
    decreases |kinds|
  {
    if kinds == [] then []
    else if cells[0] in occupied then
      var rest := PlaceEntities(occupied, kinds[1..], cells[1..]);
      SkipDraw(occupied, kinds, cells, rest);
      rest
    else
      var rest := PlaceEntities(occupied + [cells[0]], kinds[1..], cells[1..]);
      TakeDraw(occupied, kinds, cells, rest);
      [Spawn(kinds[0], cells[0])] + rest
  }

  /** A first draw on an occupied cell spawns nothing, and the later draws are free exactly when
      they were free without it. */
  lemma SkipDraw(occupied: seq<Loc>, kinds: seq<Kind>, cells: seq<Loc>, rest: seq<Spawn>)
    requires |cells| == |kinds| > 0 && cells[0] in occupied
    requires SpawnsEveryFreeDraw(occupied, kinds[1..], cells[1..], rest)
    requires SpawnsOnlyFreeDraws(occupied, kinds[1..], cells[1..], rest)
    ensures SpawnsEveryFreeDraw(occupied, kinds, cells, rest)
    ensures SpawnsOnlyFreeDraws(occupied, kinds, cells, rest)
  {
    forall k | 0 <= k < |kinds| && FreeDraw(occupied, cells, k)
      ensures Spawn(kinds[k], cells[k]) in rest
    {
      assert k != 0;
      assert cells[1..][..k - 1] == cells[1..k];
      assert FreeDraw(occupied, cells[1..], k - 1);
    }
    forall i | 0 <= i < |rest|
      ensures exists k | 0 <= k < |kinds| :: rest[i] == Spawn(kinds[k], cells[k]) && FreeDraw(occupied, cells, k)
    {
      var k :| 0 <= k < |kinds[1..]| && rest[i] == Spawn(kinds[1..][k], cells[1..][k]) && FreeDraw(occupied, cells[1..], k);
      assert cells[..k + 1] == [cells[0]] + cells[1..][..k];
      assert FreeDraw(occupied, cells, k + 1);
    }
  }

  /** A first draw on a free cell spawns there, and the later draws see that cell as taken. */
  lemma TakeDraw(occupied: seq<Loc>, kinds: seq<Kind>, cells: seq<Loc>, rest: seq<Spawn>)
    requires |cells| == |kinds| > 0 && cells[0] !in occupied
    requires SpawnsEveryFreeDraw(occupied + [cells[0]], kinds[1..], cells[1..], rest)
    requires SpawnsOnlyFreeDraws(occupied + [cells[0]], kinds[1..], cells[1..], rest)
    ensures SpawnsEveryFreeDraw(occupied, kinds, cells, [Spawn(kinds[0], cells[0])] + rest)
    ensures SpawnsOnlyFreeDraws(occupied, kinds, cells, [Spawn(kinds[0], cells[0])] + rest)
  {
    var r := [Spawn(kinds[0], cells[0])] + rest;
    forall k | 0 <= k < |kinds| && FreeDraw(occupied, cells, k)
      ensures Spawn(kinds[k], cells[k]) in r
    {
      if k > 0 {
        assert cells[0] in cells[..k];
        assert cells[1..][..k - 1] == cells[1..k];
        assert FreeDraw(occupied + [cells[0]], cells[1..], k - 1);
      }
    }
    forall i | 0 <= i < |r|
      ensures exists k | 0 <= k < |kinds| :: r[i] == Spawn(kinds[k], cells[k]) && FreeDraw(occupied, cells, k)
    {
      if i == 0 {
        assert FreeDraw(occupied, cells, 0);
      } else {
        assert r[i] == rest[i - 1];
        var k :| 0 <= k < |kinds[1..]| && rest[i - 1] == Spawn(kinds[1..][k], cells[1..][k])
          && FreeDraw(occupied + [cells[0]], cells[1..], k);
        assert cells[..k + 1] == [cells[0]] + cells[1..][..k];
        assert FreeDraw(occupied, cells, k + 1);
      }
    }
  }

  /** Spawns stay inside the room's spawn area when the draws do. */
  lemma {:induction false} SpawnsInsideRoom(room: Room, occupied: seq<Loc>, kinds: seq<Kind>, cells: seq<Loc>)
    requires |cells| == |kinds|
    requires forall i | 0 <= i < |cells| :: SpawnCell(room, cells[i])
    ensures forall s | s in PlaceEntities(occupied, kinds, cells) :: SpawnCell(room, s.loc) && InInner(room, s.loc)
  {
    forall s | s in PlaceEntities(occupied, kinds, cells) ensures SpawnCell(room, s.loc) && InInner(room, s.loc) {
      assert s.loc in cells;
    }
  }
}
