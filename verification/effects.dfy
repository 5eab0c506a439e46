/** Item and spell effects from entity.py: lightning-scroll targeting and use, the fireball,
    healing potions, and waking nearby sleepers. */
module Effects {
  import opened Common
  import opened Grid
  import opened Components
  import opened Entities
  import opened GameMap
  import opened Actions

  /** `LightningScroll.maximum_range` and `damage`. */
  const LightningRange: nat := 5
  const LightningDamage: int := 5
  /** `FireballScroll.radius` and `damage`. */
  const FireballRadius: nat := 5
  const FireballDamage: int := 6
  /** The radius of `wake_up_entities`. */
  const WakeRadius: nat := 15

  /** Entity `i` could be struck by the lightning scroll held by entity `h`: a living being,
      hostile to the holder, not the holder, on a visible cell, within range. */
  predicate Strikable(m: Level, h: nat, i: nat)
    requires h < |m.entities| && m.entities[h].body.Creature?
  {
    && i < |m.entities|
    && m.entities[i].body.Creature?
    && HostileTo(m.entities[h].body.being, m.entities[i].body.being)
    && i != h
    && m.entities[i].loc in m.visible
    && Dist(m.entities[h].loc, m.entities[i].loc) <= LightningRange
  }

  function DistFrom(m: Level, h: nat, i: nat): nat
    requires h < |m.entities| && i < |m.entities|
  {
    Dist(m.entities[h].loc, m.entities[i].loc)
  }

  /** The first candidate at minimal distance among the entities from index `i` on. */
  function ClosestFrom(m: Level, h: nat, i: nat): (r: Option<nat>)
    requires h < |m.entities| && m.entities[h].body.Creature?
    ensures r.Some? ==> i <= r.value && Strikable(m, h, r.value)
    ensures r.Some? ==> forall j | i <= j < |m.entities| && Strikable(m, h, j) ::
      DistFrom(m, h, r.value) <= DistFrom(m, h, j)
    ensures r.Some? ==> forall j | i <= j < r.value && Strikable(m, h, j) ::
      DistFrom(m, h, r.value) < DistFrom(m, h, j)
    ensures r.None? <==> forall j | i <= j < |m.entities| :: !Strikable(m, h, j)
    decreases |m.entities| - i
  {
    if i >= |m.entities| then None
    else
      var rest := ClosestFrom(m, h, i + 1);
      if Strikable(m, h, i) && (rest.None? || DistFrom(m, h, i) <= DistFrom(m, h, rest.value)) then Some(i)
      else rest
  }

  /** `LightningScroll.calculate_target()` for the scroll held by entity `h`: the first
      candidate at minimal Chebyshev distance, or nothing when there is none. */
  function CalculateTarget(m: Level, h: nat): (r: Option<nat>)
    requires h < |m.entities| && m.entities[h].body.Creature?
    ensures r.Some? ==> Strikable(m, h, r.value)
    ensures r.Some? ==> forall j | Strikable(m, h, j) :: DistFrom(m, h, r.value) <= DistFrom(m, h, j)
    ensures r.None? <==> forall j :: !Strikable(m, h, j)
  {
    ClosestFrom(m, h, 0)
  }

  /** Removing an item from the inventory of creature `h`. */
  function RemoveFromHolder(m: Level, h: nat, item: Item): (r: Level)
    requires h < |m.entities| && m.entities[h].body.Creature?
    requires item in m.entities[h].body.being.inventory.items
    ensures r == m.(entities := r.entities)
    ensures SameLayout(m.entities, r.entities)
    ensures r.entities[h] == WithInventory(m.entities[h], RemoveItem(m.entities[h].body.being.inventory, item))
    ensures forall i | 0 <= i < |m.entities| && i != h :: r.entities[i] == m.entities[i]
  {
    var e := m.entities[h];
    SetEntity(m, h, WithInventory(e, RemoveItem(e.body.being.inventory, item)))
  }

  /** `LightningScroll.activate()` for the scroll `scroll` held by entity `h`: 5 damage to the
      target and the scroll is used up, or `Impossible` with nothing changed. */
  function Lightning(m: Level, h: nat, scroll: Item): (r: Result<Level>)
    requires h < |m.entities| && m.entities[h].body.Creature?
    requires scroll in m.entities[h].body.being.inventory.items
    ensures CalculateTarget(m, h).None? <==> r == Err(Impossible("No enemy is close enough to strike."))
    ensures r.Ok? ==>
      var t := CalculateTarget(m, h).value;
      var f := FighterOf(m.entities[t]);
      && SameLayout(m.entities, r.value.entities)
      && FighterOf(r.value.entities[t]) == TakeDamage(f, LightningDamage).fighter
      && multiset(r.value.entities[h].body.being.inventory.items) ==
           multiset(m.entities[h].body.being.inventory.items) - multiset{scroll}
  {
    var t := CalculateTarget(m, h);
    if t.None? then Err(Impossible("No enemy is close enough to strike."))
    else
      var m1 := DamageAt(m, t.value, LightningDamage);
      HolderKeepsInventory(m, t.value, h, LightningDamage);
      var r := RemoveFromHolder(m1, h, scroll);
      assert r.entities[t.value] == m1.entities[t.value];
      Ok(r)
  }

  /** Damaging another being leaves the holder's inventory alone. */
  lemma HolderKeepsInventory(m: Level, t: nat, h: nat, amount: int)
    requires t < |m.entities| && m.entities[t].body.Creature?
    requires h < |m.entities| && m.entities[h].body.Creature? && h != t
    ensures DamageAt(m, t, amount).entities[h].body.Creature?
    ensures DamageAt(m, t, amount).entities[h].body.being.inventory == m.entities[h].body.being.inventory
  {
    assert SameButLevel(m.entities[h], DamageAt(m, t, amount).entities[h]);
  }

  /** `LightningScroll.is_usable(player)`: the scroll would strike the player. */
  predicate IsUsable(m: Level, h: nat, player: nat)
    requires h < |m.entities| && m.entities[h].body.Creature?
  {
    CalculateTarget(m, h) == Some(player)
  }

  // ---------------------------------------------------------------- fireball

  /** Entity `i` is caught in a blast centred on `c`. */
  predicate InBlast(m: Level, c: Loc, i: nat)
  {
    i < |m.entities| && m.entities[i].body.Creature? && Dist(m.entities[i].loc, c) <= FireballRadius
  }

  /** The indices, from `i` on and in order, of the entities caught in the blast. */
  function BlastFrom(m: Level, c: Loc, i: nat): (r: seq<nat>)
    ensures forall j | 0 <= j < |r| :: InBlast(m, c, r[j]) && i <= r[j]
    ensures forall j | i <= j < |m.entities| :: InBlast(m, c, j) <==> j in r
    ensures forall a, b | 0 <= a < b < |r| :: r[a] < r[b]
    decreases |m.entities| - i
  {
    if i >= |m.entities| then []
    else if InBlast(m, c, i) then [i] + BlastFrom(m, c, i + 1)
    else BlastFrom(m, c, i + 1)
  }

  predicate Distinct(idx: seq<nat>)
  {
    forall a, b | 0 <= a < b < |idx| :: idx[a] != idx[b]
  }

  /** `take_damage(amount)` on each listed being in turn. */
  function DamageEach(m: Level, idx: seq<nat>, amount: int): (r: Level)
    requires forall j | 0 <= j < |idx| :: idx[j] < |m.entities| && m.entities[idx[j]].body.Creature?
    requires Distinct(idx)
    ensures r == m.(entities := r.entities)
    ensures SameLayout(m.entities, r.entities)
    ensures forall i | 0 <= i < |m.entities| && m.entities[i].body.Creature? ::
      FighterOf(r.entities[i]) ==
        (if i in idx then TakeDamage(FighterOf(m.entities[i]), amount).fighter else FighterOf(m.entities[i]))
    ensures forall i | 0 <= i < |m.entities| && i !in idx :: SameButLevel(m.entities[i], r.entities[i])
    decreases |idx|
  {
    if idx == [] then m
    else
      var m1 := DamageAt(m, idx[0], amount);
      var r := DamageEach(m1, idx[1..], amount);
      assert forall i | 0 <= i < |m.entities| :: i in idx <==> i == idx[0] || i in idx[1..];
      assert idx[0] !in idx[1..];
      r
  }

  /** The blast itself: every being caught takes 6 damage, then the scroll is used up. */
  function Blast(m: Level, h: nat, scroll: Item, target: Loc): (r: Level)
    requires h < |m.entities| && m.entities[h].body.Creature?
    requires scroll in m.entities[h].body.being.inventory.items
    ensures SameLayout(m.entities, r.entities)
    ensures forall i | 0 <= i < |m.entities| && m.entities[i].body.Creature? ::
      FighterOf(r.entities[i]) ==
        (if InBlast(m, target, i) then TakeDamage(FighterOf(m.entities[i]), FireballDamage).fighter
         else FighterOf(m.entities[i]))
    ensures multiset(r.entities[h].body.being.inventory.items) ==
      multiset(m.entities[h].body.being.inventory.items) - multiset{scroll}
  {
    var hits := BlastFrom(m, target, 0);
    var m1 := DamageEach(m, hits, FireballDamage);
    HitBeingKeepsInventory(m, hits, h);
    var r := RemoveFromHolder(m1, h, scroll);
    assert forall i | 0 <= i < |m.entities| && m.entities[i].body.Creature? ::
      FighterOf(r.entities[i]) == FighterOf(m1.entities[i]);
    r
  }

  /** `FireballScroll.activate2(target)` for the scroll held by entity `h`: every living being
      within the radius of a visible target cell takes 6 damage and the scroll is used up. An
      unseen target or an empty blast is `Impossible`, and the scroll stays. */
  function Fireball(m: Level, h: nat, scroll: Item, target: Loc): (r: Result<Level>)
    requires h < |m.entities| && m.entities[h].body.Creature?
    requires scroll in m.entities[h].body.being.inventory.items
    ensures target !in m.visible ==> r == Err(Impossible("You cannot target an area that you cannot see."))
    ensures target in m.visible && (forall i :: !InBlast(m, target, i)) ==>
      r == Err(Impossible("There are no targets in the radius."))
    ensures r.Ok? ==> target in m.visible && (exists i :: InBlast(m, target, i)) && r.value == Blast(m, h, scroll, target)
  {
    if target !in m.visible then Err(Impossible("You cannot target an area that you cannot see."))
    else
      var hits := BlastFrom(m, target, 0);
      if hits == [] then
        assert forall i :: !InBlast(m, target, i);
        Err(Impossible("There are no targets in the radius."))
      else
        assert InBlast(m, target, hits[0]);
        Ok(Blast(m, h, scroll, target))
  }

  /** Damage changes a being's fighter, name, flags and experience, never what it carries. */
  lemma HitBeingKeepsInventory(m: Level, idx: seq<nat>, h: nat)
    requires forall j | 0 <= j < |idx| :: idx[j] < |m.entities| && m.entities[idx[j]].body.Creature?
    requires Distinct(idx)
    requires h < |m.entities| && m.entities[h].body.Creature?
    ensures DamageEach(m, idx, FireballDamage).entities[h].body.Creature?
    ensures DamageEach(m, idx, FireballDamage).entities[h].body.being.inventory == m.entities[h].body.being.inventory
    decreases |idx|
  {
    if idx != [] {
      var m1 := DamageAt(m, idx[0], FireballDamage);
      assert m1.entities[h].body.Creature?;
      assert m1.entities[h].body.being.inventory == m.entities[h].body.being.inventory;
      HitBeingKeepsInventory(m1, idx[1..], h);
    }
  }

  // ---------------------------------------------------------------- healing

  /** The outcome of an effect that can fail after it has already changed the game. */
  datatype Outcome = Outcome(level: Level, failure: Option<Failure>)

  /** `HealingItem.activate()` for the potion `potion` held by entity `h`: the holder heals, the
      potion is used up in every case, and only a player who recovered nothing gets
      `Impossible` -- after the potion is gone. */
  function Drink(m: Level, h: nat, potion: Item): (r: Outcome)
    requires h < |m.entities| && m.entities[h].body.Creature?
    requires potion in m.entities[h].body.being.inventory.items && potion.cls.PotionClass?
    ensures
      var f := FighterOf(m.entities[h]);
      var healed := Heal(f, potion.cls.amount);
      && SameLayout(m.entities, r.level.entities)
      && FighterOf(r.level.entities[h]) == healed.fighter
      && multiset(r.level.entities[h].body.being.inventory.items) ==
           multiset(m.entities[h].body.being.inventory.items) - multiset{potion}
      && (r.failure.Some? <==> healed.recovered <= 0 && IsPlayer(m.entities[h]))
      && (r.failure.Some? ==> r.failure.value == Impossible("Your health is already full."))
  {
    var e := m.entities[h];
    var f := FighterOf(e);
    var healed := Heal(f, potion.cls.amount);
    var m1 := if f.hp == f.maxHp then m else ApplyHp(m, h, Min(f.maxHp, f.hp + potion.cls.amount));
    assert m1.entities[h].body.being.inventory == e.body.being.inventory;
    var m2 := RemoveFromHolder(m1, h, potion);
    Outcome(m2, if healed.recovered <= 0 && e.body.being.isPlayer then Some(Impossible("Your health is already full.")) else None)
  }

  /** A player at full health loses the potion and is told the health is already full. */
  lemma FullHealthStillUsesPotion(m: Level, h: nat, potion: Item)
    requires h < |m.entities| && m.entities[h].body.Creature? && IsPlayer(m.entities[h])
    requires potion in m.entities[h].body.being.inventory.items && potion.cls.PotionClass?
    requires FighterOf(m.entities[h]).hp == FighterOf(m.entities[h]).maxHp
    ensures Drink(m, h, potion).failure == Some(Impossible("Your health is already full."))
    ensures |Drink(m, h, potion).level.entities[h].body.being.inventory.items| ==
      |m.entities[h].body.being.inventory.items| - 1
  {
    var r := Drink(m, h, potion);
    var a := r.level.entities[h].body.being.inventory.items;
    var b := m.entities[h].body.being.inventory.items;
    assert |multiset(a)| == |multiset(b) - multiset{potion}|;
  }

  // ---------------------------------------------------------------- waking up

  predicate Asleep(e: Entity)
  {
    e.body.Creature? && e.body.being.asleep != 0
  }

  function Awake(e: Entity): (r: Entity)
    ensures !Asleep(r) && r.id == e.id && r.loc == e.loc && r.name == e.name
    ensures !Asleep(e) ==> r == e
    ensures e.body.Creature? ==> r.body == Creature(e.body.being.(asleep := 0))
  {
    if Asleep(e) then e.(body := Creature(e.body.being.(asleep := 0))) else e
  }

  predicate Near(e: Entity, l: Loc)
  {
    Dist(e.loc, l) <= WakeRadius && e.loc != l
  }

  /** `wake_up_entities()` by an entity standing at `l`: every sleeper within 15 cells, except
      on `l` itself, wakes up; nothing else changes. */
  function WakeUpEntities(m: Level, l: Loc): (r: Level)
    ensures r == m.(entities := r.entities)
    ensures |r.entities| == |m.entities|
    ensures forall i | 0 <= i < |m.entities| ::
      r.entities[i] == (if Near(m.entities[i], l) then Awake(m.entities[i]) else m.entities[i])
  {
    m.(entities := seq(|m.entities|, i requires 0 <= i < |m.entities| =>
      if Near(m.entities[i], l) then Awake(m.entities[i]) else m.entities[i]))
  }

  /** Afterwards nobody that `entities_within_dist(l, 15)` reports is asleep. */
  lemma NoSleepersNearAfterWakeUp(m: Level, l: Loc)
    ensures forall e | e in EntitiesWithinDist(WakeUpEntities(m, l).entities, l, WakeRadius) :: !Asleep(e)
    ensures SameLayout(m.entities, WakeUpEntities(m, l).entities)
  {
    var r := WakeUpEntities(m, l);
    forall e | e in EntitiesWithinDist(r.entities, l, WakeRadius) ensures !Asleep(e) {
      var i :| 0 <= i < |r.entities| && r.entities[i] == e;
      assert Near(m.entities[i], l);
    }
  }
}
