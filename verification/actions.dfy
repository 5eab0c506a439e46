/** Action resolution (actions.py) and the map-level effect of hit point changes
    (the `hp` setter together with `Fighter.die()` from entity_components.py). */
module Actions {
  import opened Common
  import opened Grid
  import opened Components
  import opened Entities
  import opened GameMap

  // ---------------------------------------------------------------- helpers on the entity list

  function SetEntity(m: Level, k: nat, e: Entity): (r: Level)
    requires k < |m.entities|
    ensures r == m.(entities := m.entities[k := e])
  {
    m.(entities := m.entities[k := e])
  }

  /** The list without its `j`-th element, the rest kept in order (`set.remove`). */
  function RemoveAt<T>(s: seq<T>, j: nat): (r: seq<T>)
    requires j < |s|
    ensures |r| == |s| - 1
    ensures forall i | 0 <= i < j :: r[i] == s[i]
    ensures forall i | j <= i < |r| :: r[i] == s[i + 1]
    ensures multiset(r) + multiset{s[j]} == multiset(s)
  {
    assert s == s[..j] + [s[j]] + s[j + 1..];
    s[..j] + s[j + 1..]
  }

  /** Two entity lists that agree on everything except the beings' states: same length, same ids,
      same locations, same kinds of body. Indices stay valid across such a change. */
  predicate SameLayout(a: seq<Entity>, b: seq<Entity>)
  {
    && |a| == |b|
    && forall i | 0 <= i < |a| ::
      a[i].id == b[i].id && a[i].loc == b[i].loc && a[i].body.Creature? == b[i].body.Creature?
  }

  /** `b` is `a` except, possibly, for its experience record. */
  predicate SameButLevel(a: Entity, b: Entity)
  {
    a == b ||
    (a.body.Creature? && b.body.Creature? && b == a.(body := Creature(a.body.being.(level := b.body.being.level))))
  }

  lemma SameButLevelTransitive(a: Entity, b: Entity, c: Entity)
    requires SameButLevel(a, b) && SameButLevel(b, c)
    ensures SameButLevel(a, c)
  {
  }

  lemma SameLayoutTransitive(a: seq<Entity>, b: seq<Entity>, c: seq<Entity>)
    requires SameLayout(a, b) && SameLayout(b, c)
    ensures SameLayout(a, c)
  {
  }

  function FighterOf(e: Entity): Fighter
    requires e.body.Creature?
  {
    e.body.being.fighter
  }

  function WithFighter(e: Entity, f: Fighter): (r: Entity)
    requires e.body.Creature?
    ensures r.body.Creature? && FighterOf(r) == f
    ensures r == e.(body := Creature(e.body.being.(fighter := f)))
  {
    e.(body := Creature(e.body.being.(fighter := f)))
  }

  /** The index of the player (`engine.player`) in the entity list. */
  function FirstPlayer(es: seq<Entity>): (r: Option<nat>)
    ensures r.Some? ==> r.value < |es| && IsPlayer(es[r.value])
    ensures r.None? <==> forall i | 0 <= i < |es| :: !IsPlayer(es[i])
  {
    if es == [] then None
    else if IsPlayer(es[0]) then Some(0)
    else
      var t := FirstPlayer(es[1..]);
      if t.Some? then Some(t.value + 1) else None
  }

  /** `engine.player.level.add_xp(xp)`: only the player's level changes. */
  function AwardXp(m: Level, xp: int): (r: Level)
    ensures r == m.(entities := r.entities)
    ensures SameLayout(m.entities, r.entities)
    ensures forall i | 0 <= i < |m.entities| && m.entities[i].body.Creature? ::
      FighterOf(r.entities[i]) == FighterOf(m.entities[i])
    ensures forall i | 0 <= i < |m.entities| && !IsPlayer(m.entities[i]) :: r.entities[i] == m.entities[i]
    ensures forall i | 0 <= i < |m.entities| :: SameButLevel(m.entities[i], r.entities[i])
  {
    var p := FirstPlayer(m.entities);
    if p.None? then m
    else
      var e := m.entities[p.value];
      var b := e.body.being;
      SetEntity(m, p.value, e.(body := Creature(b.(level := AddXp(b.level, xp).0))))
  }

  /** `target.fighter.hp = v` on entity `t`: the clamped value is stored and, when the fighter
      dies, the entity becomes remains and, unless it was the player, the player gains the
      experience it was worth. Uses the once-only `die()` (see `Components.AssignHp`). */
  function ApplyHp(m: Level, t: nat, v: int): (r: Level)
    requires t < |m.entities| && m.entities[t].body.Creature?
    ensures r == m.(entities := r.entities)
    ensures SameLayout(m.entities, r.entities)
    ensures FighterOf(r.entities[t]) == AssignHp(FighterOf(m.entities[t]), v).fighter
    ensures forall i | 0 <= i < |m.entities| && i != t && m.entities[i].body.Creature? ::
      FighterOf(r.entities[i]) == FighterOf(m.entities[i])
    ensures !AssignHp(FighterOf(m.entities[t]), v).dies ==>
      r.entities == m.entities[t := WithFighter(m.entities[t], FighterOf(r.entities[t]))]
    ensures AssignHp(FighterOf(m.entities[t]), v).dies ==>
      r.entities[t] == Remains(WithFighter(m.entities[t], FighterOf(r.entities[t])))
    ensures forall i | 0 <= i < |m.entities| && i != t && !IsPlayer(m.entities[i]) ::
      r.entities[i] == m.entities[i]
    ensures forall i | 0 <= i < |m.entities| && i != t :: SameButLevel(m.entities[i], r.entities[i])
  {
    var e := m.entities[t];
    var b := e.body.being;
    var c := AssignHp(b.fighter, v);
    var e1 := WithFighter(e, c.fighter);
    if !c.dies then SetEntity(m, t, e1)
    else
      var m1 := SetEntity(m, t, Remains(e1));
      if b.isPlayer then m1 else AwardXp(m1, b.level.xpGiven)
  }

  /** `fighter.take_damage(amount)` on entity `t`. */
  function DamageAt(m: Level, t: nat, amount: int): (r: Level)
    requires t < |m.entities| && m.entities[t].body.Creature?
    ensures r == ApplyHp(m, t, FighterOf(m.entities[t]).hp - amount)
    ensures SameLayout(m.entities, r.entities)
  {
    ApplyHp(m, t, FighterOf(m.entities[t]).hp - amount)
  }

  // ---------------------------------------------------------------- MovementAction

  /** `MovementAction(mod).perform()`: out of range or onto a non-walkable tile is `Impossible`;
      otherwise the actor moves by exactly `mod`. Blocking entities are not looked at here. */
  function Move(m: Level, k: nat, mod: Loc): (r: Result<Level>)
    requires k < |m.entities|
    ensures !InBounds(m, Add(m.entities[k].loc, mod)) ==> r == Err(Impossible("Out of range"))
    ensures InBounds(m, Add(m.entities[k].loc, mod)) && !Walkable(m, Add(m.entities[k].loc, mod)) ==>
      r == Err(Impossible("Blocked"))
    ensures OpenCell(m, Add(m.entities[k].loc, mod)) ==>
      && r.Ok?
      && r.value == m.(entities := r.value.entities)
      && |r.value.entities| == |m.entities|
      && r.value.entities[k] == m.entities[k].(loc := Add(m.entities[k].loc, mod))
      && forall i | 0 <= i < |m.entities| && i != k :: r.value.entities[i] == m.entities[i]
  {
    var dest := Add(m.entities[k].loc, mod);
    if !InBounds(m, dest) then Err(Impossible("Out of range"))
    else if !Walkable(m, dest) then Err(Impossible("Blocked"))
    else Ok(SetEntity(m, k, m.entities[k].(loc := dest)))
  }

  // ---------------------------------------------------------------- MeleeAction

  /** A die roll `randint(1, 5)`. */
  type D5 = x: int | 1 <= x <= 5 witness 1

  /** The random draws of one attack: the base roll, whether `random() > .95` made it a
      critical hit, and the extra roll used only then. */
  datatype MeleeRoll = MeleeRoll(d1: D5, crit: bool, d2: D5)

  /** The damage before defense scaling: a d5 plus power, and another d5 on a critical hit. */
  function RawDamage(power: int, roll: MeleeRoll): (dmg: int)
    ensures 1 + power <= dmg <= 10 + power
    ensures !roll.crit ==> dmg <= 5 + power
    ensures roll.crit ==> dmg >= 2 + power
  {
    roll.d1 + power + (if roll.crit then roll.d2 else 0)
  }

  /** The defense scaling `int(round(dmg * 5 / (5 + defense)))`, floating point in the game, is a
      parameter: it maps the raw damage and the target's defense to a damage amount. */
  type Scale = (int, int) -> nat

  /** `MeleeAction(mod).perform()` by entity `k`. */
  function Melee(m: Level, k: nat, mod: Loc, roll: MeleeRoll, scale: Scale): (r: Result<Level>)
    requires k < |m.entities| && m.entities[k].body.Creature?
    ensures GetBlockingEntityAt(m, Add(m.entities[k].loc, mod)).None? ==> r == Ok(m)
    ensures r.Ok? ==> SameLayout(m.entities, r.value.entities) && r.value == m.(entities := r.value.entities)
    ensures
      var t := GetBlockingEntityAt(m, Add(m.entities[k].loc, mod));
      t.Some? && !m.entities[t.value].body.Creature? ==> r.Err? && r.failure.Fault?
    ensures
      var t := GetBlockingEntityAt(m, Add(m.entities[k].loc, mod));
      t.Some? && m.entities[t.value].body.Creature? ==>
        var tb := m.entities[t.value].body.being;
        var def := Defense(tb.fighter, tb.equipment);
        var dmg := scale(RawDamage(Power(FighterOf(m.entities[k]), m.entities[k].body.being.equipment), roll), def);
        && (5 + def == 0 ==> r.Err? && r.failure.Fault?)
        && (5 + def != 0 && dmg == 0 ==> r == Ok(m))
        && (5 + def != 0 && dmg > 0 ==>
              r.Ok? && FighterOf(r.value.entities[t.value]).hp == Clamp(tb.fighter.hp - dmg, tb.fighter.maxHp))
  {
    var a := m.entities[k];
    var t := GetBlockingEntityAt(m, Add(a.loc, mod));
    if t.None? then Ok(m)
    else
      var target := m.entities[t.value];
      if !target.body.Creature? then Err(Fault("the target has no fighter"))
      else
        var def := Defense(target.body.being.fighter, target.body.being.equipment);
        if 5 + def == 0 then Err(Fault("division by zero"))
        else
          var damage := scale(RawDamage(Power(a.body.being.fighter, a.body.being.equipment), roll), def);
          if damage > 0 then Ok(DamageAt(m, t.value, damage)) else Ok(m)
  }

  // ---------------------------------------------------------------- BumpAction

  /** `BumpAction(mod).perform()`: melee when a blocking entity stands on the destination,
      otherwise movement. */
  function Bump(m: Level, k: nat, mod: Loc, roll: MeleeRoll, scale: Scale): (r: Result<Level>)
    requires k < |m.entities| && m.entities[k].body.Creature?
    ensures GetBlockingEntityAt(m, Add(m.entities[k].loc, mod)).Some? ==> r == Melee(m, k, mod, roll, scale)
    ensures GetBlockingEntityAt(m, Add(m.entities[k].loc, mod)).None? ==> r == Move(m, k, mod)
  {
    if GetBlockingEntityAt(m, Add(m.entities[k].loc, mod)).Some? then Melee(m, k, mod, roll, scale)
    else Move(m, k, mod)
  }

  /** A bump never puts the actor on a cell held by a blocking entity: either it stays where it
      was or the destination had no blocker. */
  lemma BumpNeverEntersBlocker(m: Level, k: nat, mod: Loc, roll: MeleeRoll, scale: Scale)
    requires k < |m.entities| && m.entities[k].body.Creature?
    requires Bump(m, k, mod, roll, scale).Ok?
    ensures
      var r := Bump(m, k, mod, roll, scale).value;
      |r.entities| == |m.entities| &&
      (r.entities[k].loc == m.entities[k].loc ||
       forall e | e in m.entities :: !(Blocking(e) && e.loc == r.entities[k].loc))
  {
  }

  // ---------------------------------------------------------------- PickupAction

  /** The index of the first item lying at `l` (`for item in game_map.items()`). */
  function FirstItemAt(es: seq<Entity>, l: Loc): (r: Option<nat>)
    ensures r.Some? ==> r.value < |es| && es[r.value].body.Thing? && es[r.value].loc == l
    ensures r.None? <==> forall i | 0 <= i < |es| :: !(es[i].body.Thing? && es[i].loc == l)
  {
    if es == [] then None
    else if es[0].body.Thing? && es[0].loc == l then Some(0)
    else
      var t := FirstItemAt(es[1..], l);
      if t.Some? then Some(t.value + 1) else None
  }

  function WithInventory(e: Entity, inv: Inventory): (r: Entity)
    requires e.body.Creature?
    ensures r.body.Creature? && r.body.being.inventory == inv
    ensures r.id == e.id && r.loc == e.loc
  {
    e.(body := Creature(e.body.being.(inventory := inv)))
  }

  /** `PickupAction.perform()` by entity `k`. */
  function Pickup(m: Level, k: nat): (r: Result<Level>)
    requires k < |m.entities| && m.entities[k].body.Creature?
    ensures FirstItemAt(m.entities, m.entities[k].loc).None? ==>
      r == Err(Impossible("There is nothing here to pick up."))
    ensures FirstItemAt(m.entities, m.entities[k].loc).Some? && Full(m.entities[k].body.being.inventory) ==>
      r == Err(Impossible("Your inventory is full."))
    ensures FirstItemAt(m.entities, m.entities[k].loc).Some? && !Full(m.entities[k].body.being.inventory) ==>
      var j := FirstItemAt(m.entities, m.entities[k].loc).value;
      var inv := m.entities[k].body.being.inventory;
      var actor := WithInventory(m.entities[k], AddItem(inv, m.entities[j].body.item));
      && r.Ok?
      && r.value == m.(entities := r.value.entities)
      && |r.value.entities| == |m.entities| - 1
      && multiset(r.value.entities) + multiset{m.entities[j]} == multiset(m.entities[k := actor])
  {
    var a := m.entities[k];
    var j := FirstItemAt(m.entities, a.loc);
    if j.None? then Err(Impossible("There is nothing here to pick up."))
    else if Full(a.body.being.inventory) then Err(Impossible("Your inventory is full."))
    else
      var item := m.entities[j.value].body.item;
      var es := m.entities[k := WithInventory(a, AddItem(a.body.being.inventory, item))];
      Ok(m.(entities := RemoveAt(es, j.value)))
  }

  /** After a successful pickup the actor carries the item as the last entry of its inventory. */
  lemma PickupAppendsToInventory(m: Level, k: nat)
    requires k < |m.entities| && m.entities[k].body.Creature?
    requires Pickup(m, k).Ok?
    ensures
      var j := FirstItemAt(m.entities, m.entities[k].loc).value;
      var r := Pickup(m, k).value;
      var k' := if j < k then k - 1 else k;
      && k' < |r.entities|
      && r.entities[k'].body.Creature?
      && r.entities[k'].body.being.inventory.items ==
           m.entities[k].body.being.inventory.items + [m.entities[j].body.item]
  {
    var j := FirstItemAt(m.entities, m.entities[k].loc).value;
    assert j != k;
  }

  // ---------------------------------------------------------------- DropItem

  /** An item placed on the map (`game_map.place(item, loc)`). */
  function ItemEntity(i: Item, l: Loc): Entity
  {
    Entity(i.id, i.name, l, Thing(i))
  }

  /** Every filled slot holds an item that belongs in that slot. */
  predicate SlotsConsistent(e: Equipment)
  {
    forall s | InSlot(e, s).Some? :: GetSlot(InSlot(e, s).value) == s
  }

  /** `DropItem(item).perform()` by entity `k`: the item leaves the inventory, lands on the map at
      the actor's location and, if it was equipped, is unequipped. Dropping an item the actor
      does not carry is the `ValueError` of `list.remove`. */
  function Drop(m: Level, k: nat, item: Item): (r: Result<Level>)
    requires k < |m.entities| && m.entities[k].body.Creature?
    ensures item !in m.entities[k].body.being.inventory.items ==> r.Err? && r.failure.Fault?
    ensures item in m.entities[k].body.being.inventory.items ==>
      var b := m.entities[k].body.being;
      && r.Ok?
      && r.value == m.(entities := r.value.entities)
      && |r.value.entities| == |m.entities| + 1
      && r.value.entities[|m.entities|] == ItemEntity(item, m.entities[k].loc)
      && r.value.entities[k].body.Creature?
      && r.value.entities[k].loc == m.entities[k].loc
      && multiset(r.value.entities[k].body.being.inventory.items) ==
           multiset(b.inventory.items) - multiset{item}
      && (SlotsConsistent(b.equipment) ==> !ItemIsEquipped(r.value.entities[k].body.being.equipment, item))
      && forall i | 0 <= i < |m.entities| && i != k :: r.value.entities[i] == m.entities[i]
  {
    var a := m.entities[k];
    var b := a.body.being;
    if item !in b.inventory.items then Err(Fault("list.remove(x): x not in list"))
    else
      var eq := if ItemIsEquipped(b.equipment, item) then ToggleEquip(b.equipment, item) else b.equipment;
      assert SlotsConsistent(b.equipment) ==> !ItemIsEquipped(eq, item) by {
        if SlotsConsistent(b.equipment) && ItemIsEquipped(b.equipment, item) {
          UnequipConsistent(b.equipment, item);
        }
      }
      var a1 := a.(body := Creature(b.(inventory := RemoveItem(b.inventory, item), equipment := eq)));
      Ok(m.(entities := m.entities[k := a1] + [ItemEntity(item, a.loc)]))
  }

  /** Whether an inventory has a `game_map` attribute. `Inventory.__init__` sets it only when it
      is given an engine, and `add_engine` only when the inventory already holds items. */
  predicate InventoryHasMap(builtWithEngine: bool, carriedWhenEngineAdded: nat)
  {
    builtWithEngine || carriedWhenEngineAdded > 0
  }

  /** The player is built as `Player(None, ...)` with no starting items, and `new_game` adds the
      engine before it adds any item. */
  const PlayerInventoryHasMap := InventoryHasMap(false, 0)

  const NoInventoryMap := Fault("'Inventory' object has no attribute 'game_map'")

  /** `DropItem(item).perform()` as written: `Inventory.drop` removes the item and then calls
      `self.game_map.place`, which raises when the inventory has no `game_map`; the item has
      already left the inventory and never reaches the map. */
  function DropAsWritten(m: Level, k: nat, item: Item, hasMap: bool): (r: Result<Level>)
    requires k < |m.entities| && m.entities[k].body.Creature?
    ensures hasMap ==> r == Drop(m, k, item)
    ensures item !in m.entities[k].body.being.inventory.items ==> r.Err? && r.failure != NoInventoryMap
    ensures !hasMap && item in m.entities[k].body.being.inventory.items ==> r == Err(NoInventoryMap)
  {
    if item !in m.entities[k].body.being.inventory.items || hasMap then Drop(m, k, item)
    else Err(NoInventoryMap)
  }

  /** As written, every drop by the player ends the game: a carried item raises once it is
      removed, any other item raises in `list.remove`. The corrected `Drop` succeeds exactly on
      carried items. */
  lemma PlayerDropCrashesAsWritten(m: Level, k: nat, item: Item)
    requires k < |m.entities| && m.entities[k].body.Creature?
    ensures DropAsWritten(m, k, item, PlayerInventoryHasMap).Err?
    ensures Drop(m, k, item).Ok? <==> item in m.entities[k].body.being.inventory.items
  {
  }

  /** In consistent equipment an equipped item sits in its own slot, so toggling removes it. */
  lemma UnequipConsistent(e: Equipment, item: Item)
    requires SlotsConsistent(e) && ItemIsEquipped(e, item)
    ensures !ItemIsEquipped(ToggleEquip(e, item), item)
  {
    var s :| InSlot(e, s) == Some(item);
    assert GetSlot(item) == s;
    var r := ToggleEquip(e, item);
    forall t ensures InSlot(r, t) != Some(item) {
      if t != s {
        assert InSlot(r, t) == InSlot(e, t);
      }
    }
    assert InSlot(r, WeaponSlot) != Some(item) && InSlot(r, ArmorSlot) != Some(item) && InSlot(r, ToolSlot) != Some(item);
  }
}
