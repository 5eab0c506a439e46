/** The combat and progression components of entity_components.py:
    `Equipment`, `CharLevel`, `Fighter` and `Inventory`. */
module Components {
  import opened Common

  /** The item classes the core dispatches on (Python's `isinstance` checks). */
  datatype ItemClass =
    | WeaponClass | ArmorClass | ToolClass | RingClass
    | PotionClass(amount: int)
    | LightningClass | FireballClass | ConfusionClass
    | OtherClass

  /** An item. `id` stands for Python object identity; `tag` is the class-level special id
      (`IDs.*` in entity.py) that a few unique items carry. */
  datatype Item = Item(id: nat, name: string, cls: ItemClass, powerBonus: int, defenseBonus: int, tag: Option<nat>)

  /** `isinstance(item, Equippable)`: weapons, armour, tools and rings. */
  predicate Equippable(i: Item)
  {
    i.cls.WeaponClass? || i.cls.ArmorClass? || i.cls.ToolClass? || i.cls.RingClass?
  }

  // ---------------------------------------------------------------- Equipment

  datatype Slot = WeaponSlot | ArmorSlot | ToolSlot

  datatype Equipment = Equipment(weapon: Option<Item>, armor: Option<Item>, tool: Option<Item>)

  const NoEquipment := Equipment(None, None, None)

  /** `equipment.get_slot(item)`: weapons to the weapon slot, armour to the armour slot and
      anything else (tools, rings, even non-equippables) to the tool slot. */
  function GetSlot(i: Item): (s: Slot)
    ensures s == WeaponSlot <==> i.cls.WeaponClass?
    ensures s == ArmorSlot <==> i.cls.ArmorClass?
    ensures s == ToolSlot <==> !i.cls.WeaponClass? && !i.cls.ArmorClass?
  {
    if i.cls.WeaponClass? then WeaponSlot
    else if i.cls.ArmorClass? then ArmorSlot
    else ToolSlot
  }

  /** `getattr(equipment, slot)`. */
  function InSlot(e: Equipment, s: Slot): Option<Item>
  {
    match s
    case WeaponSlot => e.weapon
    case ArmorSlot => e.armor
    case ToolSlot => e.tool
  }

  /** `setattr(equipment, slot, v)`: only that slot changes. */
  function SetSlot(e: Equipment, s: Slot, v: Option<Item>): (r: Equipment)
    ensures InSlot(r, s) == v
    ensures forall t :: t != s ==> InSlot(r, t) == InSlot(e, t)
  {
    match s
    case WeaponSlot => e.(weapon := v)
    case ArmorSlot => e.(armor := v)
    case ToolSlot => e.(tool := v)
  }

  /** `equip_to_slot(item)`: the item's slot holds the item afterwards, whatever was there is
      displaced, and the other slots are unchanged. */
  function EquipToSlot(e: Equipment, i: Item): (r: Equipment)
    ensures InSlot(r, GetSlot(i)) == Some(i)
    ensures forall t :: t != GetSlot(i) ==> InSlot(r, t) == InSlot(e, t)
    ensures ItemIsEquipped(r, i)
  {
    var s := GetSlot(i);
    var cleared := if InSlot(e, s).Some? then UnequipFromSlot(e, s) else e;
    SetSlot(cleared, s, Some(i))
  }

  /** `unequip_from_slot(slot)`: the slot is emptied. (The Python version reads the old
      item's name for its message, so it is only ever called on an occupied slot.) */
  function UnequipFromSlot(e: Equipment, s: Slot): (r: Equipment)
    ensures InSlot(r, s) == None
    ensures forall t :: t != s ==> InSlot(r, t) == InSlot(e, t)
  {
    SetSlot(e, s, None)
  }

  /** `toggle_equip(item)`: unequip when the item is the one in its slot, equip otherwise. */
  function ToggleEquip(e: Equipment, i: Item): (r: Equipment)
    ensures InSlot(e, GetSlot(i)) == Some(i) ==> InSlot(r, GetSlot(i)) == None
    ensures InSlot(e, GetSlot(i)) != Some(i) ==> InSlot(r, GetSlot(i)) == Some(i)
    ensures forall t :: t != GetSlot(i) ==> InSlot(r, t) == InSlot(e, t)
  {
    var s := GetSlot(i);
    if InSlot(e, s) == Some(i) then UnequipFromSlot(e, s) else EquipToSlot(e, i)
  }

  lemma EquipmentExtensional(a: Equipment, b: Equipment)
    requires forall t :: InSlot(a, t) == InSlot(b, t)
    ensures a == b
  {
    assert InSlot(a, WeaponSlot) == InSlot(b, WeaponSlot);
    assert InSlot(a, ArmorSlot) == InSlot(b, ArmorSlot);
    assert InSlot(a, ToolSlot) == InSlot(b, ToolSlot);
  }

  /** Toggling twice from an empty slot gives back the equipment we started with. */
  lemma ToggleTwiceRestoresEmptySlot(e: Equipment, i: Item)
    requires InSlot(e, GetSlot(i)) == None
    ensures ToggleEquip(ToggleEquip(e, i), i) == e
  {
    var once := ToggleEquip(e, i);
    var twice := ToggleEquip(once, i);
    assert InSlot(once, GetSlot(i)) == Some(i);
    forall t ensures InSlot(twice, t) == InSlot(e, t) {
    }
    EquipmentExtensional(twice, e);
  }

  /** `item_is_equipped(item)`. */
  predicate ItemIsEquipped(e: Equipment, i: Item)
  {
    e.weapon == Some(i) || e.armor == Some(i) || e.tool == Some(i)
  }

  /** `fully_equipped()`: all three slots hold something. */
  predicate FullyEquipped(e: Equipment)
  {
    e.weapon.Some? && e.armor.Some? && e.tool.Some?
  }

  /** `slot_available(item)`: the item's slot is empty. */
  predicate SlotAvailable(e: Equipment, i: Item)
  {
    InSlot(e, GetSlot(i)).None?
  }

  function PowerOf(o: Option<Item>): int
  {
    if o.Some? then o.value.powerBonus else 0
  }

  function DefenseOf(o: Option<Item>): int
  {
    if o.Some? then o.value.defenseBonus else 0
  }

  /** `power_bonus`: the sum of the power bonuses of the filled slots. */
  function PowerBonus(e: Equipment): int
  {
    PowerOf(e.weapon) + PowerOf(e.armor) + PowerOf(e.tool)
  }

  /** `defense_bonus`: the sum of the defense bonuses of the filled slots. */
  function DefenseBonus(e: Equipment): int
  {
    DefenseOf(e.weapon) + DefenseOf(e.armor) + DefenseOf(e.tool)
  }

  function SlotSum(e: Equipment, f: Option<Item> -> int): int
  {
    f(InSlot(e, WeaponSlot)) + f(InSlot(e, ArmorSlot)) + f(InSlot(e, ToolSlot))
  }

  /** Equipping trades the displaced item's bonuses for the new item's, and nothing else. */
  lemma EquipChangesBonusesBySlot(e: Equipment, i: Item)
    ensures PowerBonus(EquipToSlot(e, i)) == PowerBonus(e) - PowerOf(InSlot(e, GetSlot(i))) + i.powerBonus
    ensures DefenseBonus(EquipToSlot(e, i)) == DefenseBonus(e) - DefenseOf(InSlot(e, GetSlot(i))) + i.defenseBonus
  {
    var r := EquipToSlot(e, i);
    assert forall t :: t != GetSlot(i) ==> InSlot(r, t) == InSlot(e, t);
    match GetSlot(i)
    case WeaponSlot => assert r.armor == e.armor && r.tool == e.tool;
    case ArmorSlot => assert r.weapon == e.weapon && r.tool == e.tool;
    case ToolSlot => assert r.weapon == e.weapon && r.armor == e.armor;
  }

  lemma NoEquipmentNoBonus()
    ensures PowerBonus(NoEquipment) == 0 && DefenseBonus(NoEquipment) == 0
    ensures !FullyEquipped(NoEquipment)
  {
  }

  // ---------------------------------------------------------------- CharLevel

  /** `CharLevel`: level, experience and the threshold formula's base and factor
      (defaults 1, 0, 10, 150), plus the experience this being is worth when killed. */
  datatype CharLevel = CharLevel(level: int, currentXp: int, base: int, factor: int, xpGiven: int)

  function NewCharLevel(xpGiven: int): CharLevel
  {
    CharLevel(1, 0, 10, 150, xpGiven)
  }

  /** `experience_to_next_level`. */
  function XpToNext(c: CharLevel): int
  {
    c.base + c.level * c.factor
  }

  /** `requires_level_up`: strictly more experience than the threshold. */
  predicate RequiresLevelUp(c: CharLevel)
  {
    c.currentXp > XpToNext(c)
  }

  /** The threshold is strict: reaching it exactly is not enough, one point more is. */
  lemma LevelUpBoundary(c: CharLevel)
    ensures c.currentXp == XpToNext(c) ==> !RequiresLevelUp(c)
    ensures c.currentXp == XpToNext(c) + 1 ==> RequiresLevelUp(c)
  {
  }

  /** `add_xp(xp)`: no change when `xp == 0` or the base is 0; otherwise the experience grows
      by `xp`. The flag says whether "You advance to level .." is announced. */
  function AddXp(c: CharLevel, xp: int): (r: (CharLevel, bool))
    ensures xp == 0 || c.base == 0 ==> r.0 == c && !r.1
    ensures xp != 0 && c.base != 0 ==> r.0 == c.(currentXp := c.currentXp + xp)
    ensures r.1 <==> r.0 != c && RequiresLevelUp(r.0)
  {
    if xp == 0 || c.base == 0 then (c, false)
    else
      var n := c.(currentXp := c.currentXp + xp);
      (n, RequiresLevelUp(n))
  }

  /** `increase_level()`: pays the threshold out of the experience and adds one level. */
  function IncreaseLevel(c: CharLevel): (r: CharLevel)
    ensures r.level == c.level + 1
    ensures r.currentXp + XpToNext(c) == c.currentXp
    ensures r.base == c.base && r.factor == c.factor && r.xpGiven == c.xpGiven
    ensures RequiresLevelUp(c) ==> r.currentXp > 0
  {
    c.(currentXp := c.currentXp - XpToNext(c), level := c.level + 1)
  }

  /** Each level raises the next threshold by `factor`. */
  lemma ThresholdGrowsByFactor(c: CharLevel)
    ensures XpToNext(IncreaseLevel(c)) == XpToNext(c) + c.factor
  {
  }

  // ---------------------------------------------------------------- Fighter

  /** `Fighter`: maximum and current hit points, base defense and base power. */
  datatype Fighter = Fighter(maxHp: int, hp: int, defense: int, power: int)

  function NewFighter(hp: int, defense: int, power: int): Fighter
  {
    Fighter(hp, hp, defense, power)
  }

  /** `fighter.power()` / `fighter.defense()`: base plus equipment bonus. */
  function Power(f: Fighter, e: Equipment): int { f.power + PowerBonus(e) }
  function Defense(f: Fighter, e: Equipment): int { f.defense + DefenseBonus(e) }

  function Clamp(v: int, hi: int): int
  {
    Max(0, Min(v, hi))
  }

  /** The outcome of an `hp` assignment: the new fighter and whether `die()` runs. */
  datatype HpChange = HpChange(fighter: Fighter, dies: bool)

  /** The `hp` setter AS WRITTEN: the stored value is kept in `[0, max_hp]`, and `die()` runs
      on every assignment that stores 0, including one made to a fighter already at 0. */
  function AssignHpAsWritten(f: Fighter, v: int): (r: HpChange)
    ensures 0 <= r.fighter.hp && (f.maxHp >= 0 ==> r.fighter.hp <= f.maxHp)
    ensures 0 <= v <= f.maxHp ==> r.fighter.hp == v
    ensures r.fighter == f.(hp := r.fighter.hp)
    ensures r.dies <==> r.fighter.hp == 0
  {
    var h := Clamp(v, f.maxHp);
    HpChange(f.(hp := h), h == 0)
  }

  /** How often `die()` runs over a run of hits, `take_damage(a)` for each `a` in turn, with the
      setter as written. */
  function DeathsAsWritten(f: Fighter, amounts: seq<int>): (n: nat)
    ensures n <= |amounts|
    decreases |amounts|
  {
    if amounts == [] then 0
    else
      var c := AssignHpAsWritten(f, f.hp - amounts[0]);
      (if c.dies then 1 else 0) + DeathsAsWritten(c.fighter, amounts[1..])
  }

  /** As written, every hit on a fighter already at 0 hit points runs `die()` again: remains
      caught by n blasts die n more times. */
  lemma {:induction false} DieRefiresAtZero(f: Fighter, amounts: seq<int>)
    requires f.hp == 0 && forall i | 0 <= i < |amounts| :: amounts[i] >= 0
    ensures DeathsAsWritten(f, amounts) == |amounts|
    decreases |amounts|
  {
    if amounts != [] {
      var c := AssignHpAsWritten(f, f.hp - amounts[0]);
      assert c.dies && c.fighter.hp == 0;
      DieRefiresAtZero(c.fighter, amounts[1..]);
    }
  }

  /** The `hp` setter as evidently intended: the same clamp, but `die()` runs only on the
      transition from alive to 0, so it fires at most once per fighter. */
  function AssignHp(f: Fighter, v: int): (r: HpChange)
    ensures 0 <= r.fighter.hp && (f.maxHp >= 0 ==> r.fighter.hp <= f.maxHp)
    ensures 0 <= v <= f.maxHp ==> r.fighter.hp == v
    ensures r.fighter == f.(hp := r.fighter.hp)
    ensures r.dies <==> f.hp > 0 && r.fighter.hp == 0
    ensures r.fighter == AssignHpAsWritten(f, v).fighter
  {
    var h := Clamp(v, f.maxHp);
    HpChange(f.(hp := h), f.hp > 0 && h == 0)
  }

  /** `take_damage(amount)`: `hp -= amount` through the setter. */
  function TakeDamage(f: Fighter, amount: int): (r: HpChange)
    ensures f.maxHp >= 0 ==> 0 <= r.fighter.hp <= f.maxHp
    ensures 0 <= f.hp - amount <= f.maxHp ==> r.fighter.hp == f.hp - amount
    ensures f.hp - amount < 0 ==> r.fighter.hp == 0
    ensures r.fighter == f.(hp := r.fighter.hp)
  {
    AssignHp(f, f.hp - amount)
  }

  /** How often `die()` runs over a run of hits with the intended setter. */
  function Deaths(f: Fighter, amounts: seq<int>): (n: nat)
    ensures n <= |amounts|
    decreases |amounts|
  {
    if amounts == [] then 0
    else
      var c := TakeDamage(f, amounts[0]);
      (if c.dies then 1 else 0) + Deaths(c.fighter, amounts[1..])
  }

  /** With the intended setter, `die()` runs at most once over any run of hits, and never for a
      fighter that starts at 0 hit points. */
  lemma {:induction false} DiesAtMostOnce(f: Fighter, amounts: seq<int>)
    requires forall i | 0 <= i < |amounts| :: amounts[i] >= 0
    ensures Deaths(f, amounts) <= 1
    ensures f.hp <= 0 ==> Deaths(f, amounts) == 0
    decreases |amounts|
  {
    if amounts != [] {
      var c := TakeDamage(f, amounts[0]);
      DiesAtMostOnce(c.fighter, amounts[1..]);
    }
  }

  /** The result of `heal(amount)`: the fighter, the amount recovered and whether `die()` ran. */
  datatype Healed = Healed(fighter: Fighter, recovered: int, dies: bool)

  /** `heal(amount)`: nothing at full health; otherwise up to `max_hp`, returning what was
      actually recovered. */
  function Heal(f: Fighter, amount: int): (r: Healed)
    ensures f.hp == f.maxHp ==> r == Healed(f, 0, false)
    ensures r.fighter == f.(hp := r.fighter.hp)
    ensures f.hp != f.maxHp && 0 <= f.hp <= f.maxHp && amount >= 0 ==>
      && r.fighter.hp == Min(f.maxHp, f.hp + amount)
      && r.recovered == r.fighter.hp - f.hp
      && 0 <= r.recovered <= amount
      && r.fighter.hp <= f.maxHp
      && !r.dies
  {
    if f.hp == f.maxHp then Healed(f, 0, false)
    else
      var hp := Min(f.maxHp, f.hp + amount);
      var healed := hp - f.hp;
      var c := AssignHp(f, hp);
      Healed(c.fighter, healed, c.dies)
  }

  // ---------------------------------------------------------------- CharLevel upgrades

  /** `increase_max_hp(20)`: more maximum and current hit points, then a level. */
  function IncreaseMaxHp(f: Fighter, c: CharLevel, amount: int := 20): (r: (Fighter, CharLevel))
    ensures r.0.maxHp == f.maxHp + amount
    ensures 0 <= f.hp <= f.maxHp && amount >= 0 ==> r.0.hp == f.hp + amount
    ensures r.0.power == f.power && r.0.defense == f.defense
    ensures r.1 == IncreaseLevel(c)
  {
    var g := f.(maxHp := f.maxHp + amount);
    (AssignHp(g, g.hp + amount).fighter, IncreaseLevel(c))
  }

  /** `increase_power(1)`. */
  function IncreasePower(f: Fighter, c: CharLevel, amount: int := 1): (r: (Fighter, CharLevel))
    ensures r.0 == f.(power := f.power + amount)
    ensures r.1 == IncreaseLevel(c)
  {
    (f.(power := f.power + amount), IncreaseLevel(c))
  }

  /** `increase_defense(1)`. */
  function IncreaseDefense(f: Fighter, c: CharLevel, amount: int := 1): (r: (Fighter, CharLevel))
    ensures r.0 == f.(defense := f.defense + amount)
    ensures r.1 == IncreaseLevel(c)
  {
    (f.(defense := f.defense + amount), IncreaseLevel(c))
  }

  // ---------------------------------------------------------------- Inventory

  /** `Inventory`: an ordered list of items and a capacity (20 for every entity). */
  datatype Inventory = Inventory(items: seq<Item>, capacity: int)

  predicate Full(inv: Inventory)
  {
    |inv.items| >= inv.capacity
  }

  /** `inventory.add(item)`: appends; there is no capacity check here. */
  function AddItem(inv: Inventory, i: Item): (r: Inventory)
    ensures |r.items| == |inv.items| + 1 && r.capacity == inv.capacity
    ensures r.items[..|inv.items|] == inv.items && r.items[|inv.items|] == i
    ensures multiset(r.items) == multiset(inv.items) + multiset{i}
  {
    Inventory(inv.items + [i], inv.capacity)
  }

  function IndexOf(s: seq<Item>, i: Item): (k: nat)
    requires i in s
    ensures k < |s| && s[k] == i && i !in s[..k]
  {
    if s[0] == i then 0 else 1 + IndexOf(s[1..], i)
  }

  /** Python `list.remove(item)`: deletes the first occurrence and keeps the rest in order. */
  function RemoveFirst(s: seq<Item>, i: Item): (r: seq<Item>)
    requires i in s
    ensures |r| == |s| - 1
    ensures multiset(r) == multiset(s) - multiset{i}
    ensures r == s[..IndexOf(s, i)] + s[IndexOf(s, i) + 1..]
  {
    var k := IndexOf(s, i);
    assert s == s[..k] + [s[k]] + s[k + 1..];
    s[..k] + s[k + 1..]
  }

  /** `inventory.remove(item)`; the item must be there (Python raises `ValueError` otherwise). */
  function RemoveItem(inv: Inventory, i: Item): (r: Inventory)
    requires i in inv.items
    ensures |r.items| == |inv.items| - 1 && r.capacity == inv.capacity
    ensures multiset(r.items) == multiset(inv.items) - multiset{i}
  {
    Inventory(RemoveFirst(inv.items, i), inv.capacity)
  }

  /** Adding and then removing an item gives back the same list. */
  lemma {:induction false} AddThenRemove(inv: Inventory, i: Item)
    requires i !in inv.items
    ensures RemoveItem(AddItem(inv, i), i) == inv
  {
    var s := inv.items + [i];
    assert IndexOf(s, i) == |inv.items| by { IndexOfAppended(inv.items, i); }
    assert s[..|inv.items|] == inv.items;
  }

  lemma {:induction false} IndexOfAppended(s: seq<Item>, i: Item)
    requires i !in s
    ensures IndexOf(s + [i], i) == |s|
    decreases |s|
  {
    if s != [] {
      assert (s + [i])[1..] == s[1..] + [i];
      IndexOfAppended(s[1..], i);
    }
  }

  /** The first item of a class in the inventory: what `inventory.get(cls)` is evidently meant to
      return. `Inventory` defines no `get`, so the call itself raises `AttributeError`. */
  function FirstOfClass(s: seq<Item>, p: ItemClass -> bool): (r: Option<Item>)
    ensures r.Some? ==> r.value in s && p(r.value.cls)
    ensures r.None? <==> forall k :: 0 <= k < |s| ==> !p(s[k].cls)
  {
    if s == [] then None
    else if p(s[0].cls) then Some(s[0])
    else FirstOfClass(s[1..], p)
  }
}
