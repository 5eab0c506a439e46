/** Monster behaviour: `Hostile.attack` (entity.py) and the enemy phase of a turn
    (`Engine.handle_enemy_turns`, engine.py). The pathfinder and the random draws are inputs. */
module Ai {
  import opened Common
  import opened Grid
  import opened Components
  import opened Entities
  import opened GameMap
  import opened Actions
  import opened Effects

  /** The eight direction keys, in the order of `input_handlers.dir_keys`. */
  const DirKeys: seq<Loc> := [Loc(-1, 0), Loc(0, 1), Loc(0, -1), Loc(1, 0),
                              Loc(-1, -1), Loc(1, -1), Loc(-1, 1), Loc(1, 1)]

  /** A confused monster stumbles to one of its eight neighbours, each key a different one. */
  lemma DirKeysAreTheEightNeighbours(p: Loc)
    ensures forall i | 0 <= i < |DirKeys| :: Add(p, DirKeys[i]) in Adj(p)
    ensures forall i, j | 0 <= i < j < |DirKeys| :: DirKeys[i] != DirKeys[j]
  {
  }

  // ---------------------------------------------------------------- handle_pickup

  /** A monster with equipment `eq` standing at `l` picks up entity `e`: an equippable item lying
      there whose slot is free. */
  predicate Takes(eq: Equipment, l: Loc, e: Entity)
  {
    e.body.Thing? && e.loc == l && Equippable(e.body.item) && SlotAvailable(eq, e.body.item)
  }

  /** The items picked up, in iteration order. */
  function Taken(es: seq<Entity>, eq: Equipment, l: Loc): (r: seq<Item>)
    ensures forall i :: i in r <==> exists e :: e in es && Takes(eq, l, e) && e.body.item == i
    ensures r == [] <==> forall e | e in es :: !Takes(eq, l, e)
  {
    if es == [] then []
    else
      var rest := Taken(es[1..], eq, l);
      assert forall e :: e in es <==> e == es[0] || e in es[1..];
      if Takes(eq, l, es[0]) then [es[0].body.item] + rest else rest
  }

  /** The entities left on the map. */
  function Kept(es: seq<Entity>, eq: Equipment, l: Loc): (r: seq<Entity>)
    ensures forall e :: e in r <==> e in es && !Takes(eq, l, e)
    ensures |r| <= |es|
  {
    if es == [] then []
    else
      var rest := Kept(es[1..], eq, l);
      assert forall e :: e in es <==> e == es[0] || e in es[1..];
      if Takes(eq, l, es[0]) then rest else [es[0]] + rest
  }

  /** `Hostile.handle_pickup()` for monster `k`: unless fully equipped, it takes every equippable
      item at its feet whose slot is free (the slots are not filled yet, so two items for the
      same slot are both taken). The flag says whether anything was picked up. */
  function HandlePickup(m: Level, k: nat): (r: (Level, bool))
    requires k < |m.entities| && m.entities[k].body.Creature?
    ensures
      var b := m.entities[k].body.being;
      r.1 <==> !FullyEquipped(b.equipment) && exists e :: e in m.entities && Takes(b.equipment, m.entities[k].loc, e)
    ensures !r.1 ==> r.0 == m
    ensures r.1 ==>
      var b := m.entities[k].body.being;
      var l := m.entities[k].loc;
      var actor := WithInventory(m.entities[k], Inventory(b.inventory.items + Taken(m.entities, b.equipment, l), b.inventory.capacity));
      && r.0 == m.(entities := r.0.entities)
      && actor in r.0.entities
      && forall e :: e in r.0.entities <==> e in m.entities[k := actor] && !Takes(b.equipment, l, e)
  {
    var b := m.entities[k].body.being;
    var l := m.entities[k].loc;
    if FullyEquipped(b.equipment) then (m, false)
    else
      var items := Taken(m.entities, b.equipment, l);
      if items == [] then
        (m, false)
      else
        assert items[0] in items;
        var actor := WithInventory(m.entities[k], Inventory(b.inventory.items + items, b.inventory.capacity));
        var es := m.entities[k := actor];
        assert es[k] == actor;
        assert actor in es && !Takes(b.equipment, l, actor);
        (m.(entities := Kept(es, b.equipment, l)), true)
  }

  // ---------------------------------------------------------------- handle_equipment

  /** The first inventory item that is equippable and whose slot is free. */
  function FirstToEquip(items: seq<Item>, eq: Equipment): (r: Option<Item>)
    ensures r.Some? ==> r.value in items && Equippable(r.value) && SlotAvailable(eq, r.value)
    ensures r.None? <==> forall i | 0 <= i < |items| :: !(Equippable(items[i]) && SlotAvailable(eq, items[i]))
  {
    if items == [] then None
    else if Equippable(items[0]) && SlotAvailable(eq, items[0]) then Some(items[0])
    else FirstToEquip(items[1..], eq)
  }

  /** `Hostile.handle_equipment()`: unless fully equipped, the first suitable carried item is
      equipped into its free slot; at most one item per turn. */
  function HandleEquipment(b: Being): (r: Being)
    ensures r == b.(equipment := r.equipment)
    ensures FullyEquipped(b.equipment) ==> r == b
    ensures !FullyEquipped(b.equipment) && FirstToEquip(b.inventory.items, b.equipment).Some? ==>
      r.equipment == EquipToSlot(b.equipment, FirstToEquip(b.inventory.items, b.equipment).value)
    ensures FirstToEquip(b.inventory.items, b.equipment).None? ==> r == b
  {
    if FullyEquipped(b.equipment) || b.inventory.items == [] then b
    else
      var i := FirstToEquip(b.inventory.items, b.equipment);
      if i.Some? then b.(equipment := EquipToSlot(b.equipment, i.value)) else b
  }

  /** Equipping into a free slot adds that item's bonuses and nothing else. */
  lemma HandleEquipmentAddsBonus(b: Being)
    requires !FullyEquipped(b.equipment) && FirstToEquip(b.inventory.items, b.equipment).Some?
    ensures
      var i := FirstToEquip(b.inventory.items, b.equipment).value;
      PowerBonus(HandleEquipment(b).equipment) == PowerBonus(b.equipment) + i.powerBonus &&
      DefenseBonus(HandleEquipment(b).equipment) == DefenseBonus(b.equipment) + i.defenseBonus
  {
    EquipChangesBonusesBySlot(b.equipment, FirstToEquip(b.inventory.items, b.equipment).value);
  }

  // ---------------------------------------------------------------- attack

  /** The action a monster returns. */
  datatype Act = BumpAct(mod: Loc) | MeleeAct(mod: Loc) | MoveAct(mod: Loc) | WaitAct

  /** What `attack()` leaves behind: the changed level and the action to perform, if any. */
  datatype Decision = Decision(level: Level, act: Option<Act>)

  /** The draws and collaborator results one monster turn needs: the path the pathfinder would
      return towards the player, the index of the random direction, and the melee roll. */
  datatype TurnInput = TurnInput(path: seq<Loc>, dirDraw: nat, roll: MeleeRoll)

  function SetBeing(m: Level, k: nat, b: Being): (r: Level)
    requires k < |m.entities|
    ensures |r.entities| == |m.entities| && r.entities[k].body == Creature(b)
  {
    SetEntity(m, k, m.entities[k].(body := Creature(b)))
  }

  function IsLightning(c: ItemClass): bool { c.LightningClass? }

  /** The lightning scroll the monster would read now, if any: its first lightning scroll, when
      that would strike the player. */
  function UsableLightning(m: Level, k: nat, p: nat): Option<Item>
    requires k < |m.entities| && m.entities[k].body.Creature?
  {
    var ls := FirstOfClass(m.entities[k].body.being.inventory.items, IsLightning);
    if ls.Some? && IsUsable(m, k, p) then ls else None
  }

  /** After pickup and equipment: the part of `attack()` that chooses the action. */
  function Choose(m: Level, k: nat, p: nat, input: TurnInput): (r: Decision)
    requires k < |m.entities| && m.entities[k].body.Creature?
    requires p < |m.entities| && m.entities[p].body.Creature?
    ensures
      var e := m.entities[k];
      var b := e.body.being;
      && (b.confused > 0 ==>
            && r.act == Some(BumpAct(DirKeys[input.dirDraw % |DirKeys|]))
            && r.level == SetBeing(m, k, b.(confused := b.confused - 1)))
      && (b.confused == 0 && UsableLightning(m, k, p).Some? ==>
            r.act.None? && Lightning(m, k, UsableLightning(m, k, p).value).Ok?)
      && (b.confused == 0 && UsableLightning(m, k, p).None? && e.loc in m.visible && Dist(e.loc, m.entities[p].loc) <= 1 ==>
            && r.act == Some(MeleeAct(DirTo(e.loc, m.entities[p].loc)))
            && Add(e.loc, r.act.value.mod) == m.entities[p].loc)
      && (b.confused == 0 && UsableLightning(m, k, p).None? && !(e.loc in m.visible && Dist(e.loc, m.entities[p].loc) <= 1) ==>
            var path := if e.loc in m.visible then input.path else b.path;
            && (path != [] ==> r.act == Some(MoveAct(DirTo(e.loc, path[0]))) && Add(e.loc, r.act.value.mod) == path[0])
            && (path == [] ==> r.act == Some(WaitAct)))
  {
    var e := m.entities[k];
    var b := e.body.being;
    if b.confused > 0 then
      Decision(SetBeing(m, k, b.(confused := b.confused - 1)), Some(BumpAct(DirKeys[input.dirDraw % |DirKeys|])))
    else
      var ls := UsableLightning(m, k, p);
      if ls.Some? then
        var zapped := Lightning(m, k, ls.value);
        if zapped.Ok? then Decision(WakeUpEntities(zapped.value, e.loc), None)
        else assert false; Decision(m, None)
      else if e.loc in m.visible && Dist(e.loc, m.entities[p].loc) <= 1 then
        var pl := m.entities[p];
        var m1 := SetEntity(m, p, pl.(body := Creature(pl.body.being.(asleep := 0))));
        Decision(WakeUpEntities(m1, e.loc), Some(MeleeAct(DirTo(e.loc, pl.loc))))
      else
        var path := if e.loc in m.visible then input.path else b.path;
        if path != [] then
          Decision(SetBeing(m, k, b.(path := path[1..])), Some(MoveAct(DirTo(e.loc, path[0]))))
        else
          Decision(SetBeing(m, k, b.(path := path)), Some(WaitAct))
  }

  /** `Hostile.attack(player)` for monster `k` with the player at index `p`. */
  function Attack(m: Level, k: nat, p: nat, input: TurnInput): (r: Decision)
    requires k < |m.entities| && m.entities[k].body.Creature?
    requires p < |m.entities| && m.entities[p].body.Creature?
    ensures HandlePickup(m, k).1 ==> r == Decision(HandlePickup(m, k).0, None)
    ensures !HandlePickup(m, k).1 ==>
      r == Choose(SetBeing(m, k, HandleEquipment(m.entities[k].body.being)), k, p, input)
  {
    var (m1, picked) := HandlePickup(m, k);
    if picked then Decision(m1, None)
    else Choose(SetBeing(m, k, HandleEquipment(m.entities[k].body.being)), k, p, input)
  }

  /** The error `attack()` raises at its lightning step: `Inventory` has no method `get`. */
  const NoInventoryGet := Fault("'Inventory' object has no attribute 'get'")

  /** `Hostile.attack(player)` as written: after pickup and equipment, a monster that is not
      confused calls `self.inventory.get(LightningScroll)`, which `Inventory` does not define.
      Only a pickup or a confused step gets a turn past that line. */
  function AttackAsWritten(m: Level, k: nat, p: nat, input: TurnInput): (r: Result<Decision>)
    requires k < |m.entities| && m.entities[k].body.Creature?
    requires p < |m.entities| && m.entities[p].body.Creature?
    ensures r.Ok? ==> r.value == Attack(m, k, p, input)
    ensures r.Err? ==> r.failure == NoInventoryGet
  {
    var (m1, picked) := HandlePickup(m, k);
    if picked then Ok(Decision(m1, None))
    else if m.entities[k].body.being.confused > 0 then
      Ok(Choose(SetBeing(m, k, HandleEquipment(m.entities[k].body.being)), k, p, input))
    else Err(NoInventoryGet)
  }

  /** As written, every turn of a monster that neither picks something up nor is confused ends
      the game; the corrected `Attack` decides an action on exactly those turns. */
  lemma AttackCrashesAsWritten(m: Level, k: nat, p: nat, input: TurnInput)
    requires k < |m.entities| && m.entities[k].body.Creature?
    requires p < |m.entities| && m.entities[p].body.Creature?
    ensures AttackAsWritten(m, k, p, input).Err? <==>
      !HandlePickup(m, k).1 && m.entities[k].body.being.confused == 0
  {
  }

  /** A monster that picks something up does nothing else that turn. */
  lemma PickupEndsTheTurn(m: Level, k: nat, p: nat, input: TurnInput)
    requires k < |m.entities| && m.entities[k].body.Creature?
    requires p < |m.entities| && m.entities[p].body.Creature?
    requires !FullyEquipped(m.entities[k].body.being.equipment)
    requires exists e :: e in m.entities && Takes(m.entities[k].body.being.equipment, m.entities[k].loc, e)
    ensures Attack(m, k, p, input).act.None?
  {
  }

  // ---------------------------------------------------------------- the enemy phase

  /** Performing the returned action. */
  function Perform(m: Level, k: nat, act: Act, roll: MeleeRoll, scale: Scale): Result<Level>
    requires k < |m.entities| && m.entities[k].body.Creature?
  {
    match act
    case BumpAct(mod) => Bump(m, k, mod, roll, scale)
    case MeleeAct(mod) => Melee(m, k, mod, roll, scale)
    case MoveAct(mod) => Move(m, k, mod)
    case WaitAct => Ok(m)
  }

  /** The index of the entity with the given id. */
  function FindId(es: seq<Entity>, id: nat): (r: Option<nat>)
    ensures r.Some? ==> r.value < |es| && es[r.value].id == id
    ensures r.None? <==> forall i | 0 <= i < |es| :: es[i].id != id
  {
    if es == [] then None
    else if es[0].id == id then Some(0)
    else
      var t := FindId(es[1..], id);
      if t.Some? then Some(t.value + 1) else None
  }

  /** One monster's turn in `handle_enemy_turns`: only a hostile entity acts; an `Impossible`
      from its action is swallowed (what `attack()` already changed stays changed); any other
      failure propagates. */
  function EnemyTurn(m: Level, id: nat, input: TurnInput, scale: Scale): (r: Result<Level>)
    ensures r.Err? ==> r.failure.Fault?
    ensures (FindId(m.entities, id).None? || !IsHostile(m.entities[FindId(m.entities, id).value])) ==> r == Ok(m)
  {
    var k := FindId(m.entities, id);
    var p := FirstPlayer(m.entities);
    if k.None? || !IsHostile(m.entities[k.value]) || p.None? then Ok(m)
    else
      var d := Attack(m, k.value, p.value, input);
      if d.act.None? then Ok(d.level)
      else
        var k2 := FindId(d.level.entities, id);
        if k2.None? || !d.level.entities[k2.value].body.Creature? then Ok(d.level)
        else
          var done := Perform(d.level, k2.value, d.act.value, input.roll, scale);
          if done.Err? && done.failure.Impossible? then Ok(d.level) else done
  }

  /** The ids of every entity but the player, in iteration order (`entities - {player}`). */
  function OthersThanPlayer(es: seq<Entity>): (r: seq<nat>)
    ensures forall e | e in es && !IsPlayer(e) :: e.id in r
    ensures forall id | id in r :: exists e | e in es :: !IsPlayer(e) && e.id == id
  {
    if es == [] then []
    else
      var rest := OthersThanPlayer(es[1..]);
      assert forall e :: e in es <==> e == es[0] || e in es[1..];
      if IsPlayer(es[0]) then rest else [es[0].id] + rest
  }

  /** The turns of the listed monsters, in order; `inputs[i]` feeds the `i`-th of them. */
  function Turns(m: Level, ids: seq<nat>, inputs: seq<TurnInput>, scale: Scale): (r: Result<Level>)
    requires |inputs| == |ids|
    ensures r.Err? ==> r.failure.Fault?
    decreases |ids|
  {
    if ids == [] then Ok(m)
    else
      var s := EnemyTurn(m, ids[0], inputs[0], scale);
      if s.Err? then s else Turns(s.value, ids[1..], inputs[1..], scale)
  }

  /** `Engine.handle_enemy_turns()`. */
  function HandleEnemyTurns(m: Level, inputs: seq<TurnInput>, scale: Scale): (r: Result<Level>)
    requires |inputs| == |OthersThanPlayer(m.entities)|
    ensures r.Err? ==> r.failure.Fault?
  {
    Turns(m, OthersThanPlayer(m.entities), inputs, scale)
  }

  /** Without hostile entities the enemy phase changes nothing. */
  lemma {:induction false} PeacefulLevelStaysPut(m: Level, ids: seq<nat>, inputs: seq<TurnInput>, scale: Scale)
    requires |inputs| == |ids|
    requires forall i | 0 <= i < |m.entities| :: !IsHostile(m.entities[i])
    ensures Turns(m, ids, inputs, scale) == Ok(m)
    decreases |ids|
  {
    if ids != [] {
      assert EnemyTurn(m, ids[0], inputs[0], scale) == Ok(m);
      PeacefulLevelStaysPut(m, ids[1..], inputs[1..], scale);
    }
  }
}
