# A roguelike's simulation core in Dafny

This project models the turn-based core of a small roguelike. The game is written in Python on top of tcod.

The model covers:

- the grid geometry of `Loc`;
- dungeon generation, which places rooms, joins them with straight, Z or L tunnels, chooses what spawns in them from depth-weighted spawn tables, places the down and up stairs, and carves a hidden room;
- queries on the tile map, the message log and map serialisation;
- the combat and progression components: equipment, experience levels, hit points and the inventory;
- action resolution: move, bump, melee, pickup and drop;
- entity rules: doors, hostility, the quest step machine, lightning and fireball scrolls, healing potions, waking monsters, and the monster decision order;
- the engine's level tree: descending and ascending between cached levels, with parent links and node numbers;
- `incomplete_nodes`, the enemy phase and `new_map`'s choice of a special level.

Modelling choices:

- Everything is an immutable datatype with pure functions.
- Random draws are explicit parameters: `randint(lo, hi)` is `lo + d % (hi - lo + 1)` and `choice(xs)` is `xs[d % |xs|]`.
- The pathfinder, the field of view and the floating-point defense scaling are inputs.
- A Python exception the game does not catch becomes `Err(Fault(..))`. The recoverable `Impossible` becomes `Err(Impossible(..))`.
- Python sets of entities are sequences. Object identity is an `id` field.

Modules, one per file:

| file | module | models |
|---|---|---|
| common.dfy | Common | `Option`, `Result`, the two kinds of failure, small arithmetic helpers |
| grid.dfy | Grid | util.py |
| rooms.dfy | Rooms | `RectangularRoom`, `Interval`, `env` |
| corridors.dfy | Corridors | `line`, `z_line`, `l_line` |
| tiles.dfy | Tiles | the five tile kinds the core uses |
| components.dfy | Components | entity_components.py |
| entities.dfy | Entities | `Door`, `Living.hostile_to`, dying, `Quest` |
| gamemap.dfy | GameMap | game_map.py map queries, `Stairs`, `serialize`/`load` |
| messages.dfy | Messages | `Message.full_text`, `MessageLog.add` |
| actions.dfy | Actions | actions.py and the map-level effect of the `hp` setter |
| effects.dfy | Effects | lightning, fireball, healing, `wake_up_entities` |
| ai.dfy | Ai | `Hostile.attack`, `Engine.handle_enemy_turns` |
| spawning.dfy | Spawning | `get_entities_at_random`, the spawning loop of `place_entities` |
| generator.dfy | Generator | the room-and-tunnel loop of `generate_dungeon` |
| stairs.dfy | Staircases | `create_stairs` |
| hidden.dfy | HiddenRooms | `hidden_room_tunnel`, `hidden_room` |
| dungeon.dfy | Dungeon | `generate_dungeon` as a whole |
| newmap.dfy | NewMap | `new_map`'s choice between a special level and an ordinary one |
| leveltree.dfy | LevelTree | `Engine.down`, `Engine.up` |
| session.dfy | Session | `new_game`, `down()` with `new_map`, `incomplete_nodes` |

## Model

| member | source | states |
|---|---|---|
| Grid.DirTo | util.py:32-37 | adding `a.dir_to(b)` to `a` gives `b`; the delta is zero exactly when the two locations coincide |
| Grid.Mod | util.py:25-26 | `a.mod(mx, my)` is `a + Loc(mx, my)`, and `dir_to` recovers the offset |
| Grid.Dist | util.py:38-41 | the distance is at least `|dx|` and at least `|dy|` and equals one of them: the Chebyshev distance |
| Grid.DistSymmetric | util.py:38-41 | `a.dist(b) == b.dist(a)` |
| Grid.DistZeroIffSame | util.py:38-41 | the distance is 0 exactly when the locations coincide |
| Grid.DistTriangle | util.py:38-41 | the distance satisfies the triangle inequality |
| Grid.Adj | util.py:15-17 | `adj()` is exactly the set of cells at distance 1; it has 8 members and excludes the point |
| Grid.NeighboursAreAdjacent | util.py:17 | the eight tuples listed in `adj` are exactly the cells at Chebyshev distance 1 |
| Grid.EightNeighbours | util.py:17 | the eight neighbours listed in `adj` are eight different cells |
| Grid.AdjLocs | util.py:19-23 | `adj_locs(include_self)` is the cells at distance 1, plus the point iff the flag is set; 9 or 8 cells |
| Grid.LessIsStrictTotalOrder | util.py:12-13 | tuple `<` on locations is irreflexive and transitive, and any two distinct locations are ordered one way |
| Grid.LocEqIsCoordinateEquality | util.py:49-50 | `==` against a possibly-missing location holds iff it is present with the same coordinates; `Loc(0,0) == Loc(0,0)` |
| Grid.PerpendicularDirs | util.py:28-30 | as written: the second direction negates the first; for a cardinal unit both are cardinal units perpendicular to it |
| Grid.PerpendicularDirsDiagonalCounterexample | util.py:28-30 | for `Loc(1,1)` the result is the direction and its reverse, not perpendicular to it |
| Grid.PerpendicularDirsFixed | util.py:28-30 | the corrected quarter turns: both are perpendicular to the input, negate each other, and are unit directions for a unit input |
| Grid.FixedAgreesOnCardinals | util.py:28-30 | on the four cardinal directions the correction returns the same two directions as the original |
| Rooms.HalfTowardZero | procgen.py:40-41 | `int(n / 2)` truncates toward zero, for negative `n` as well |
| Rooms.Center | procgen.py:38-42 | the center of a room with `x1 <= x2`, `y1 <= y2` lies in the room, edges included |
| Rooms.InnerIsContained | procgen.py:44-52 | a cell of `room.inner` is contained in the room and is not its top-left corner |
| Rooms.GridCells | procgen.py:65-84 | the nested `for y: for x:` loops list each cell of the half-open box exactly once, and nothing else |
| Rooms.Inner2Locs | procgen.py:78-84 | `inner2_locs` is exactly the cells with `x1+2 <= x < x2-2` and `y1+2 <= y < y2-2`, without repeats; every one is inside the room; it is non-empty iff the room is at least 5 by 5 |
| Rooms.Locs | procgen.py:65-76 | `locs()` is exactly the cells `x1 <= x < x2`, `y1 <= y < y2`, all contained in the room |
| Rooms.Walls | procgen.py:54-63 | for an ordered room, `walls()` is exactly the boundary cells except the bottom-right corner `p2` |
| Rooms.IntersectsSymmetric | procgen.py:86-87 | the margin test is symmetric in its two rooms |
| Rooms.ApartRoomsKeepDistance | procgen.py:86-87 | two rooms that pass the margin test keep every pair of their cells at distance at least 2 |
| Rooms.OrderedRoomIntersectsItself | procgen.py:86-87 | an ordered room intersects itself |
| Rooms.IntervalInner | procgen.py:219-220 | `inner()` holds exactly the interval's values at least 2 from both ends |
| Rooms.IntervalIntersects | procgen.py:222-226 | the result exists iff the intervals share a value; it is then `[max(a), min(b)]` and holds exactly the shared values |
| Rooms.ClosestX | procgen.py:94-98 | the pair names an x edge of the other room and one of this room; for rooms apart along x they are the facing edges |
| Rooms.ClosestY | procgen.py:100-104 | the same along y |
| Rooms.Env | procgen.py:521-526 | `env` clamps into `[min, max]` when `min <= max`, keeps in-range values, and lets the lower bound win when `max < min` |
| Corridors.Line | procgen.py:237-246 | `line` orders its endpoints, has `max - min + 1` cells, starts and ends at them, and holds exactly the cells between them on its axis |
| Corridors.ZLine | procgen.py:248-265 | `z_line` holds both endpoints and exactly the cells of the Z shape along the longer axis, and stays in the endpoints' bounding box |
| Corridors.OnZInBox | procgen.py:248-265 | every cell of the Z shape lies in the endpoints' bounding box |
| Corridors.LLine | procgen.py:267-273 | `l_line` holds both endpoints and exactly the cells of the L shape: along the row of the left end, then along the column of the right end; all in the bounding box |
| Components.GetSlot | entity_components.py:63-70 | weapons map to the weapon slot, armour to the armour slot, and anything else to the tool slot |
| Components.EquipToSlot | entity_components.py:45-53 | afterwards the item's slot holds the item, any previous occupant is displaced, and the other slots are unchanged |
| Components.UnequipFromSlot | entity_components.py:55-61 | the slot is emptied and no other slot changes |
| Components.ToggleEquip | entity_components.py:76-81 | the item is unequipped if it is in its slot and equipped otherwise; the other slots are unchanged |
| Components.ToggleTwiceRestoresEmptySlot | entity_components.py:76-81 | toggling the same item twice from an empty slot gives back the original equipment |
| Components.EquipChangesBonusesBySlot | entity_components.py:11-34 | equipping changes `power_bonus` and `defense_bonus` by the new item's bonus minus the displaced item's |
| Components.NoEquipmentNoBonus | entity_components.py:11-34 | empty equipment has zero bonuses and is not fully equipped |
| Components.LevelUpBoundary | entity_components.py:96-102 | reaching `experience_to_next_level` exactly does not require a level-up; one more point does |
| Components.AddXp | entity_components.py:104-111 | nothing changes when `xp == 0` or the base is 0; otherwise the experience grows by `xp`; the level-up message comes exactly when the new total is above the threshold |
| Components.IncreaseLevel | entity_components.py:113-115 | adds one level and pays the threshold out of the experience; the result is positive when a level-up was due |
| Components.ThresholdGrowsByFactor | entity_components.py:96-115 | each level raises the threshold by exactly `level_up_factor` |
| Components.AssignHpAsWritten | entity_components.py:152-156 | as written: the stored hit points are clamped to `[0, max_hp]`, and `die()` runs exactly when the stored value is 0 |
| Components.DieRefiresAtZero | entity_components.py:152-156 | as written, every hit on a fighter already at 0 hit points runs `die()` again: n hits run it n times |
| Components.AssignHp | entity_components.py:152-156 | the corrected setter stores the same clamped value and runs `die()` only when hit points drop from positive to 0 |
| Components.DiesAtMostOnce | entity_components.py:152-156 | with the corrected setter, `die()` runs at most once over any run of non-negative hits, and never for a fighter that starts at 0 |
| Components.TakeDamage | entity_components.py:167-168 | `take_damage` subtracts the amount, clamped to `[0, max_hp]`, and changes nothing else |
| Components.Heal | entity_components.py:158-165 | at full health nothing changes and 0 is returned; otherwise hit points rise to `min(max_hp, hp + amount)` and the gain is returned |
| Components.IncreaseMaxHp | entity_components.py:117-121 | maximum and current hit points rise by the amount, power and defense stay, and a level is added |
| Components.IncreasePower | entity_components.py:123-126 | base power rises by the amount and a level is added |
| Components.IncreaseDefense | entity_components.py:128-131 | base defense rises by the amount and a level is added |
| Components.AddItem | entity_components.py:203-205 | `add` appends the item at the end with no capacity check |
| Components.RemoveFirst | entity_components.py:212-213 | `list.remove` deletes the first occurrence and keeps the rest in order |
| Components.RemoveItem | entity_components.py:212-213 | `remove` takes exactly one copy of the item out of the inventory and keeps the capacity |
| Components.AddThenRemove | entity_components.py:203-213 | adding an item and then removing it gives back the same inventory |
| Components.FirstOfClass | entity.py:190-191 | the corrected reading of `inventory.get(cls)`, which `Inventory` does not define: a carried item of that class, and none exactly when no such item is carried |
| Entities.Toggle | entity.py:855-857 | a locked door stays as it is; an unlocked door flips `closed` |
| Entities.ToggleFlipsBlockingIffUnlocked | entity.py:851-857 | toggling changes whether the door blocks iff the door is unlocked, and toggling twice is a no-op |
| Entities.HostilityIsSymmetricAndPlayerCentred | entity.py:145-146 | `hostile_to` is symmetric and only ever links the player with a hostile being |
| Entities.Remains | entity_components.py:179-184 | a dead entity stops blocking, is no longer hostile, is still counted as alive, and is renamed "remains of ..." |
| Entities.RemainsAreNotHostile | entity_components.py:182-183 | the remains of a monster are hostile to nobody and nobody is hostile to them |
| Entities.Start | entity.py:737-739 | `start` sets step 2 and `started` |
| Entities.End | entity.py:744-746 | `end` sets step 3 and `completed` |
| Entities.Conv | entity.py:730-735 | `conv` gives the opening lines iff the step is 1, the closing lines iff it is 3, and nothing otherwise |
| Entities.Advance | entity.py:758-764 | `advance` does nothing unless the quest is started; at step 2 with the end condition met it completes the quest and pays the reward |
| Entities.QuestNeverEndsAsWritten | entity.py:741-742 | as written, a started quest at step 2 stays exactly as it is and pays nothing, whatever the player carries in any number of conversations |
| Entities.EndedQuestStays | entity.py:758-764 | a completed quest stays as it is and pays nothing in any later conversation |
| Entities.QuestEndsWithTaggedItem | entity.py:741-742 | with the corrected end condition, a started quest completes if the player holds the tagged item at some conversation, and the reward is paid exactly once |
| GameMap.NewLevel | game_map.py:65-71 | a new map has the given size, is all wall, holds the given entities and has nothing visible |
| GameMap.InBoundsIsValidIndex | game_map.py:196-198 | `in_bounds` holds exactly when the location indexes the tile array |
| GameMap.SetTile | procgen.py:413 | `tiles[x, y] = t` changes that one cell and nothing else |
| GameMap.BlockingAt | game_map.py:150-153 | the first blocking entity at the location, or none exactly when no blocking entity stands there |
| GameMap.GetBlockingEntityAt | game_map.py:150-153 | the result is a blocking entity at the location; none iff no entity there blocks |
| GameMap.EmptyIff | game_map.py:218-225 | `empty` holds iff the cell is in bounds, walkable and free of blocking entities |
| GameMap.EntitiesWithinDist | game_map.py:124-129 | exactly the entities within Chebyshev distance `d` of the location, except those standing on it |
| GameMap.MakeTurn | game_map.py:100-102 | each room's `auspicious` becomes `max(0, a - 1)`; nothing else about a room changes |
| GameMap.MakeTurnRepeated | game_map.py:100-102 | after `n` turns each counter is `max(0, a - n)` |
| GameMap.FindRoom | game_map.py:107-111 | the result is a room whose inclusive rectangle holds the location; none iff no room does |
| GameMap.GetDownMap | game_map.py:113-114 | the left stair when it exists and the location is on it, the right stair otherwise |
| GameMap.WalkSound | game_map.py:284-307 | whatever the search loop returns starts at the start and continues with consecutive in-bounds non-walkable cells one `dir` apart, at most 100; the cell one step beyond is walkable, and the last cell has no walkable cell beside it across `dir` |
| GameMap.FindWalkable | game_map.py:284-307 | a returned run is a run as described for the search loop |
| GameMap.FindWalkableFindsEveryRun | game_map.py:284-307 | conversely, every run of that description is exactly what `find_walkable` returns, so it returns none only when no such run exists |
| GameMap.LocOf | game_map.py:74-77 | a stair is saved as its location, and a missing stair as none |
| GameMap.Load | game_map.py:81-98 | `load` gives a level-1 map with no entities, the saved tiles, and stairs at the saved locations tagged `left`/`right` |
| GameMap.SaveLoadRoundTrip | game_map.py:73-98 | loading a saved map keeps its tiles and the three stair locations, and saving a loaded map gives back the saved data |
| Messages.FullText | game_map.py:316-321 | `full_text` is the text itself for a count of 1 and otherwise the text followed by " (xN)", where N is the count in decimal digits with no leading zero |
| Messages.ParseNatToString | game_map.py:320 | the decimal text written for the count reads back as the count |
| Messages.AddMessage | game_map.py:328-337 | a dedupe of the last text changes nothing; stacking on the last text raises its count by 1; otherwise one message is appended; counts stay positive |
| Messages.AddExtendsExpansion | game_map.py:328-337 | unless deduped, `add` extends the log, read with stacked messages written out, by exactly the new line; a dedupe leaves it unchanged |
| Actions.RemoveAt | actions.py:91 | removing one entity keeps the rest in order and removes exactly that one from the multiset |
| Actions.AwardXp | entity_components.py:176 | only the player's experience record changes |
| Actions.ApplyHp | entity_components.py:152-184 | the target's fighter takes the clamped value; a death turns it into remains and may change only the player's experience; no other entity changes |
| Actions.DamageAt | entity_components.py:167-168 | `take_damage` on an entity is the `hp` assignment of its hit points minus the amount |
| Actions.Move | actions.py:29-41 | out of bounds gives `Impossible("Out of range")`; a non-walkable cell gives `Impossible("Blocked")`; otherwise only the actor moves, by exactly `mod` |
| Actions.RawDamage | actions.py:53-57 | the damage before scaling lies in `[1 + power, 10 + power]`: at most `5 + power` without a critical hit and at least `2 + power` with one |
| Actions.Melee | actions.py:44-67 | no blocker changes nothing; a blocker that is not a fighter crashes, and so does a zero divisor `5 + defense`; a scaled damage of 0 changes nothing; positive damage sets the target's hit points to the clamped difference |
| Actions.Bump | actions.py:69-80 | melee iff a blocking entity stands on the destination, otherwise movement |
| Actions.BumpNeverEntersBlocker | actions.py:69-80 | after a bump the actor is where it was, or on a cell that held no blocker |
| Actions.FirstItemAt | actions.py:86-87 | the first item lying at the location; none iff there is none |
| Actions.Pickup | actions.py:82-98 | nothing there gives `Impossible`; a full inventory gives `Impossible` and changes nothing; otherwise exactly one item leaves the map |
| Actions.PickupAppendsToInventory | actions.py:91-95 | after a pickup the actor carries the item as the last entry of its inventory |
| Actions.Drop | actions.py:100-107 | the corrected drop: an item not carried crashes; otherwise exactly one copy leaves the inventory and lies at the actor's location as a new entity; with consistent equipment it is no longer equipped; no other entity changes |
| Actions.DropAsWritten | entity_components.py:207-210 | as written, a drop from an inventory without a `game_map` fails after the item has been removed; with a map it is the corrected drop, and an item not carried fails with `list.remove`'s error either way |
| Actions.PlayerDropCrashesAsWritten | engine.py:173-184 | the player's inventory has no `game_map`, so every drop by the player fails as written, while the corrected drop succeeds exactly on carried items |
| Actions.UnequipConsistent | actions.py:104-106 | in consistent equipment, toggling an equipped item unequips it |
| Effects.ClosestFrom | entity.py:340-353 | the first candidate target at minimal distance from the holder, or none when there is no candidate |
| Effects.CalculateTarget | entity.py:340-353 | the target is a visible living entity hostile to the holder, within range, at minimal distance among those; none iff there is no such entity |
| Effects.Lightning | entity.py:355-363 | no target gives `Impossible("No enemy is close enough to strike.")`; otherwise the target takes 5 damage and the scroll is used up |
| Effects.HolderKeepsInventory | entity.py:360-361 | damaging another entity leaves the holder's inventory alone, so the scroll can be removed afterwards |
| Effects.BlastFrom | entity.py:486-487 | exactly the living entities within the radius of the target cell, in increasing order |
| Effects.DamageEach | entity.py:486-490 | each listed being takes the damage in turn; entities not listed change at most in experience |
| Effects.Blast | entity.py:485-494 | every being caught takes 6 damage and the scroll leaves the holder's inventory |
| Effects.Fireball | entity.py:481-494 | an unseen target cell gives `Impossible`; no being in the radius gives `Impossible` and the scroll stays; otherwise the blast happens |
| Effects.HitBeingKeepsInventory | entity.py:489-494 | the blast never changes what the holder carries |
| Effects.Drink | entity.py:217-228 | the holder heals by what `heal` returns, the potion leaves the inventory in every case, and `Impossible` comes iff the holder is the player and nothing was recovered |
| Effects.FullHealthStillUsesPotion | entity.py:217-228 | a player at full health is told so and still loses the potion |
| Effects.Awake | entity.py:107-108 | a woken entity is not asleep and is otherwise unchanged |
| Effects.WakeUpEntities | entity.py:98-108 | exactly the sleepers within 15 cells, except those on the caller's cell, wake up; nothing else changes |
| Effects.NoSleepersNearAfterWakeUp | entity.py:98-108 | afterwards nothing `entities_within_dist(loc, 15)` reports is asleep |
| Ai.DirKeysAreTheEightNeighbours | input_handlers.py:15-21 | each direction key leads to a different one of the eight neighbours |
| Ai.Taken | entity.py:156-166 | the items picked up are exactly the equippable items at the monster's cell whose slot is free |
| Ai.Kept | entity.py:156-166 | the entities left on the map are exactly those not picked up |
| Ai.HandlePickup | entity.py:156-166 | unless fully equipped, the monster takes the items above into its inventory and off the map; it reports a pickup iff it took something |
| Ai.FirstToEquip | entity.py:168-175 | the first carried equippable item whose slot is free; none iff there is none |
| Ai.HandleEquipment | entity.py:168-175 | unless fully equipped, that item is equipped; only the equipment changes |
| Ai.HandleEquipmentAddsBonus | entity.py:168-175 | equipping into a free slot adds exactly that item's bonuses |
| Ai.Choose | entity.py:181-215 | the corrected decision order: a confused monster bumps a random way and loses one turn of confusion; otherwise it reads a usable lightning scroll; otherwise, visible and adjacent, it melees toward the player; otherwise it steps along its path; otherwise it waits |
| Ai.Attack | entity.py:177-215 | the corrected turn: a pickup ends the turn with no action; otherwise equipment is handled and the decision order above applies |
| Ai.AttackAsWritten | entity.py:177-191 | as written the turn ends the game with the `AttributeError` of `inventory.get`, unless it picks up or the monster is confused; when it does not fail it agrees with `Ai.Attack` |
| Ai.AttackCrashesAsWritten | entity.py:181-190 | the turn fails exactly when the monster picked nothing up and is not confused |
| Ai.PickupEndsTheTurn | entity.py:178-179 | a monster that picked something up returns no action |
| Ai.EnemyTurn | engine.py:134-141 | only a hostile entity acts; `Impossible` from its action is swallowed, so only crashes fail |
| Ai.OthersThanPlayer | engine.py:134 | the ids iterated are those of every entity except the player |
| Ai.HandleEnemyTurns | engine.py:133-141 | the enemy phase fails only by a crash, never by `Impossible` |
| Ai.PeacefulLevelStaysPut | engine.py:133-141 | with no hostile entity, the enemy phase changes nothing |
| Spawning.Put | procgen.py:171 | `d[k] = w` keeps an existing key in place with the new weight, appends a new key, and keeps the keys unique |
| Spawning.PutAll | procgen.py:168-171 | a row's entries are inserted with unique keys, and the keys are exactly the old ones plus the row's |
| Spawning.Reached | procgen.py:164-166 | the loop reads the rows up to the first key above the floor |
| Spawning.Eligible | procgen.py:161-174 | a kind is in the dictionary iff a row the floor reaches names it; keys are unique |
| Spawning.LaterRowOverrides | procgen.py:168-171 | a later weight for the same kind overrides the earlier one |
| Spawning.TablesAreSorted | procgen.py:139-159 | both tables list their depth keys in increasing order |
| Spawning.ReachedIsKeysUpToFloor | procgen.py:164-166 | for sorted tables, a row is read iff its key is at most the floor |
| Spawning.PickFrom | procgen.py:175 | the ticket falls in the chosen entry's cumulative-weight range, and that entry has positive weight |
| Spawning.Pick | procgen.py:175 | each draw is a kind in the dictionary with positive weight |
| Spawning.GetEntitiesAtRandom | procgen.py:161-175 | an empty dictionary crashes; with positive total weight there are exactly as many draws as tickets, each an eligible kind |
| Spawning.ItemTableNeverFails | procgen.py:139-145 | the item table never fails on any floor |
| Spawning.EnemyTableNeverFails | procgen.py:147-159 | the monster table never fails on any floor |
| Spawning.TableNeverFails | procgen.py:161-175 | a sorted table with positive weights and a first key at most the floor always produces draws |
| Spawning.PlaceEntities | procgen.py:186-189 | draw k spawns its own kind on its own cell exactly when that cell was free before the loop and no earlier draw chose it; every spawn is such a draw, spawns avoid occupied cells and one another, and there are no more spawns than draws |
| Spawning.SpawnsInsideRoom | procgen.py:187-189 | every spawn lies strictly inside its room |
| Generator.DrawRoom | procgen.py:339-349 | a drawn room's corner lies in its slot's window and `env` keeps it inside the map with the drawn size bounds |
| Generator.TunLocs | procgen.py:326 | `tun_locs` is exactly the cells of the accepted tunnels |
| Generator.FirstNear | procgen.py:329-332 | the first recorded cell adjacent to the given cell; none iff there is none |
| Generator.AdjHit | procgen.py:327-333 | `adj(tun)` finds a recorded cell next to some tunnel cell; none iff no tunnel cell touches a recorded one |
| Generator.ZOrL | procgen.py:366-370 | a Z corridor, else an L one, between the centres, rejected if it touches a recorded tunnel; none iff both touch |
| Generator.Nudge | procgen.py:385-386 | the row moves one step away from the tunnel cell that was hit |
| Generator.TryRows | procgen.py:381-388 | a row found has both ends clear of the recorded tunnels and lies within one row of the shared interval; with no tunnels the first draw is taken |
| Generator.Route | procgen.py:359-400 | the corridor is non-empty and on the map, and either holds both centres or is a straight row between facing walls; without a shared row range it is the Z-or-L choice |
| Generator.CarveAll | procgen.py:412-413 | exactly the listed cells get the tile |
| Generator.DoorCell | procgen.py:404-411 | the door goes on the first tunnel cell on an edge line of the previous room; none iff there is none |
| Generator.Entries | procgen.py:415-421 | the tunnel cells on the previous room's walls, and those on the new room's walls only, are recorded as entries |
| Generator.Occupied | procgen.py:188 | the cells held by the player, the doors, the spawns and the underground spaces |
| Generator.Dig | procgen.py:401-421 | digging turns exactly the tunnel cells to floor, records the tunnel, adds at most one door, and keeps every room's corners |
| Generator.Furnish | procgen.py:423-432 | the room's interior becomes floor, spawns avoid occupied cells, floor stays floor, and the loop invariant holds |
| Generator.AppendApart | procgen.py:351-352 | a room that intersects no earlier room keeps the rooms pairwise apart |
| Generator.Step | procgen.py:336-432 | a pass keeps the invariant: rooms pairwise apart and inside the map, tunnels never sharing a cell and all floor; skipped or intersecting rooms change nothing |
| Generator.Passes | procgen.py:336-432 | the passes keep the invariant, grow the state, and on floor 0 put the player at the first room's centre |
| Generator.Generate | procgen.py:310-432 | the loop on a fresh map gives at most 5 rooms satisfying the invariant, one level deeper, with no stairs yet |
| Staircases.Candidates | procgen.py:474 | the cells of `inner2_locs` not among the excluded cells |
| Staircases.SearchDown | procgen.py:445-452 | it fails exactly when there are no rooms and a try is made (`choice` of an empty list); a placed down stair is on an in-bounds cell outside the occupied cells, inside a room's `inner2` and not excluded, with the down-stairs tile, and only that cell changes; with no stair placed the level is unchanged |
| Staircases.Choice | procgen.py:447-450 | a try chooses nothing exactly when there are no rooms or its room has no candidate cell; a chosen cell is a room's `inner2` cell outside the excluded cells |
| Staircases.ChoicesAt | procgen.py:446-450 | the i-th entry of the choices is what the i-th try chooses |
| Staircases.FirstLandIsFirstLanding | procgen.py:446-452 | the first landing choice exists exactly when some try chooses a cell no entity stands on, and it is that first such try's cell |
| Staircases.SearchDownPlacesFirstLanding | procgen.py:445-452 | a search places its down stair exactly when some try chooses a cell no entity stands on, and it places it on the cell of the first such try |
| Staircases.SetDown | procgen.py:462-469 | two found cells become `left` and `right` in `<` order, and one found cell becomes one of them; each is tagged with its side and leads nowhere yet; nothing but the two stairs changes |
| Staircases.PlaceUp | procgen.py:471-481 | the up stair goes on a room's `inner2` cell that is not a down stair, with the up-stairs tile, remembering the player's cell and the map above; only that cell changes; with no candidate cell in any room it crashes |
| Staircases.PlaceUpTakesFirstChoice | procgen.py:471-481 | placing the up stair raises exactly when none of the tries chooses a cell, and otherwise uses the cell chosen by the first try that chooses one; entities are not consulted |
| Staircases.PlaceDownStairs | procgen.py:441-469 | the down stairs are tagged with their sides, lead nowhere yet, are strictly ordered by `<`, and sit on cells the searches found; past `max_levels` there are none |
| Staircases.CreateStairs | procgen.py:440-481 | down stairs as above; an up stair exists iff the floor is below the first, remembers the player's cell, and shares no cell with a down stair; on a lower floor, rooms with no `inner2` cell make it crash |
| Staircases.CreateStairsFailsIffNoUpChoice | procgen.py:471-481 | below the first floor, once the down stairs are placed, `create_stairs` raises exactly when none of the fifty up-stair tries chooses a cell |
| HiddenRooms.Candidate | procgen.py:502-503 | a candidate is a room three cells on a side at a drawn corner at least 3 cells from every map edge |
| HiddenRooms.HiddenRoomTunnel | procgen.py:483-496 | the run found by the first search that finds one; none iff all four find nothing |
| HiddenRooms.RunIsStraight | game_map.py:289-307 | a run along a unit direction lies on a straight line from its start |
| HiddenRooms.TunnelShape | procgen.py:483-496 | a tunnel found from a candidate is non-empty, stays in bounds, never enters the candidate's inner cells, and ends on a cell it does not visit earlier |
| HiddenRooms.CarveTunnel | procgen.py:512-515 | every tunnel cell but the last becomes floor, the last becomes the hidden passage, and nothing else changes |
| HiddenRooms.CarveRoom | procgen.py:518 | exactly the candidate's inner cells become floor |
| HiddenRooms.HiddenRoom | procgen.py:498-519 | nothing is carved exactly when no candidate passes the three tests, and the map is then unchanged; otherwise the carved room is the first candidate that passes them, apart from every room and sealed in rock, reached by a search that found its tunnel, and carved as described below; if every candidate intersects a room, nothing is carved |
| HiddenRooms.Carved | procgen.py:512-519 | the room's inner cells and the tunnel become floor, the tunnel's last cell becomes the hidden passage, the cell beyond it is walkable, and every other cell is unchanged |
| Dungeon.GenerateDungeon | procgen.py:310-438 | a generated level is full size, one deeper, with at most 5 rooms pairwise apart, sided unexplored down stairs, and an up stair iff below the first floor; the player is at the first room's centre on floor 0 and stays put below |
| Dungeon.WithHiddenRoom | procgen.py:436-437 | carving the hidden room keeps every guarantee of a generated level and changes only the tiles |
| Dungeon.HiddenRoomSparesRooms | procgen.py:498-519 | the hidden room never changes a walkable cell of a room |
| Dungeon.SharedCellIntersects | procgen.py:86-87 | two rooms sharing a cell intersect |
| NewMap.LevelsAt | entity.py:806-814 | the special levels registered for a depth, in order |
| NewMap.NewMapKindAsWritten | engine.py:195-197 | as written, `new_map` crashes exactly on depths that have a special level, and otherwise builds an ordinary level |
| NewMap.SecondDescentCrashesAsWritten | engine.py:195-197 | the descent to depth 3 crashes as written |
| NewMap.NewMapKind | engine.py:195-201 | the corrected choice builds the first special level registered for the depth unless it was built already, and an ordinary level otherwise |
| NewMap.Register | engine.py:199 | a special level's id is recorded once it is built |
| NewMap.SpecialBuiltOnce | engine.py:196-199 | once registered, the same depth gives an ordinary level |
| NewMap.SpecialDepths | entity.py:806-814 | the special depths are exactly 3 and 10 |
| LevelTree.WithChild | engine.py:116 | `setattr(node, side, child)` sets that child and keeps the other child, the id and the parent |
| LevelTree.WithTarget | engine.py:114 | the stair on that side now leads to the new map; the other stair is unchanged |
| LevelTree.DownSide | game_map.py:113-114 | the side whose stair `get_down_map` picks |
| LevelTree.Down | engine.py:106-121 | the level rises by 1 and the player stands on the new map's up stair; a cached stair moves to the map it names and adds nothing; a first descent appends the new map and a node numbered by the last pooled number, whose parent is the current node; a failure is a crash or the failure of `new_map` |
| LevelTree.Up | engine.py:124-130 | `up` succeeds iff the up stair leads somewhere, remembers a cell and the node has a parent; then the level drops by 1, the player is at `above_loc`, the current node is the parent, and the maps and nodes are unchanged |
| LevelTree.UpKeepsInv | engine.py:124-130 | going up keeps the level tree well formed |
| LevelTree.DownCachedKeepsInv | engine.py:110-112 | a descent through a cached stair keeps the tree well formed and moves to a child of the node left |
| LevelTree.DownFreshKeepsInv | engine.py:113-118 | a first descent keeps the tree well formed, node ids distinct, and makes the new node a child of the one left |
| LevelTree.NoDupsMoveLast | engine.py:32-35 | popping a node number from the pool keeps all node numbers distinct |
| LevelTree.DownKeepsInv | engine.py:106-121 | either kind of descent keeps the tree well formed |
| LevelTree.DownSucceeds | engine.py:106-121 | from a down stair, `down` fails exactly when the stair leads nowhere yet and either `new_map` failed or the node numbers ran out |
| LevelTree.UpAfterDown | engine.py:106-130 | descending and then ascending puts the player back on the same cell, map, node and level |
| LevelTree.DownAfterUp | engine.py:106-130 | ascending and then descending the same stair gives back exactly the starting engine |
| Session.IncompleteNodes | engine.py:40-54 | every entry names a map at or after the one the walk starts from |
| Session.IncompleteExactly | engine.py:40-54 | a map is listed with a side iff it is reachable by going down and its stair on that side exists but has no map yet |
| Session.OwnEntriesLast | engine.py:44-54 | a node's own entries come after everything listed for the levels below it |
| Session.NewGameAllIncomplete | engine.py:40-54 | in a fresh session a side of the first level is listed iff that down stair exists |
| Session.NewGame | engine.py:170-177 | a new session has one level-0 map and one root node numbered by the last shuffled number, with the rest kept for later; the tree is well formed |
| Session.NextLevel | engine.py:189-202 | the ordinary branch of `new_map`: `new_map` below the current level gives a generated level one deeper whose up stair leads back to the current map and remembers the player's cell |
| Session.Descend | engine.py:106-121 | `down` with `new_map` keeps the tree well formed, goes one level deeper to a child of the node left, and fails exactly when the stair is unexplored and either generation fails or the node numbers ran out |
| Session.DescendKeepsForward | engine.py:113-118 | every stair keeps leading to a map made later than its own |
| Session.UpKeepsForward | engine.py:124-130 | going up keeps the tree well formed and every stair leading to a later map |

## Left out

- Rendering, input dispatch, menus, FOV computation, `show_tree`, and the message texts of combat and death: the map-level functions do not record messages. The message log is modelled on its own.
- Pickle/lzma saving and the JSON/numpy text of `serialize`: saving is modelled as the tiles and the three stair locations.
- The pathfinder (`get_path_to`), the visible set and the defense scaling `int(round(dmg * 5 / (5 + defense)))`: the path is an input, the visible set is part of the level, and the scaling is a function parameter.
- Distributions of `random`, `randint`, `choice` and `choices`: every draw is a parameter.
- `place_special` and `generate_special_dungeon`: the special-level registry is modelled only as its two levels, and only the choice between them and an ordinary level is modelled.
- `place_vertical`: only its first draw is modelled, since `dungeon.left`, `right` and `up` are all unset while the room loop runs.
- The `Water` spawn in `place_entities`, which imports a class entity.py lacks, and monster companions (`gen_companions`), which the modelled kinds do not have.
- The `Gremlin` row of the monster table, which names a class entity.py lacks.
- `on_attack` hooks of particular monsters (acid, petrification): the base hook does nothing, and the subclasses are not modelled.
- Quest rewards (gold and items): `Entities.Advance` reports only whether `end()` ran.
- Corridors.Line: requires the axis to be usable. `line` tests `if x:`, so a column at x = 0 would be taken for a row. No corridor reaches column 0, because rooms start at x = 3.
- Corridors.ZLine: requires both ends off column 0, and Corridors.LLine requires the right end off column 0, for the same `if x:` reason; room centres are never in column 0.
- Effects.CalculateTarget: reads visibility on the current level. The source lists the beings of `engine.game_map` but tests `e.game_map.visible`, the map stored in the holder when `add_engine` ran; for the player that map stays the first level, so after a descent the source tests the wrong map.
- Effects.Fireball: reads visibility and the beings on the current level. `activate2` uses the scroll's own `game_map`, which `add_engine` fixes when the scroll is made, so a scroll carried down a level blasts the map it was made on.
- Session.NextLevel: always takes the ordinary branch of `new_map`. At the special depths 3 and 10 (`engine.level` 2 and 9) the source raises instead, as the third row under "## Findings" shows, so `Session.Descend` claims success there where the source fails.
- HiddenRooms.HiddenRoom: does not record `dungeon.hidden_rooms` and `dungeon.hidden_tile` (procgen.py:516-517); no modelled operation reads them.
- Spawning.PlaceEntities: records a spawn only as its kind and cell. The rest of `spawn()` (procgen.py:110-131) is not modelled: the early return for a kind whose `id` is in `engine.specials`, the up to two random items and the `LightningScroll` put in every spawned being's inventory, the `asleep = -1` set on half of them, and the contents of boxes and underground spaces. Generated levels therefore carry no entities of their own (`GameMap.NewLevel` with an empty list in `Generator.Generate`); the player, doors, spawns and underground spaces live only in the generator state's side lists `doors`, `spawns` and `spaces`. Inventories and sleep are modelled on levels built by hand, as `Ai.Attack` and `Effects.WakeUpEntities` take them.
- Components.RemoveItem: requires the item to be carried. Python's `list.remove` raises `ValueError` otherwise, and `Actions.Drop` models that error path.
- Staircases.SetDown: when neither down-stair search chose a cell, the source stores a stair whose location is the integer 0 (procgen.py:443, procgen.py:469); the model stores no stair.
- LevelTree.Down: the crash messages for a missing stair are Python's wording, and `show_tree` after the move is not modelled.
- Session.NewGame: the six starting items put in the player's inventory, the event handler and the first FOV update are not modelled.
- Session.Descend: requires the player to stand on a down stair, as the input handler ensures before calling `down()`.
- GameMap.Walkable: numpy would wrap negative indices; every caller checks bounds first, so the model reads only in-bounds cells.
- Python set iteration order is not modelled: entity collections are sequences in insertion order.

## Findings

| source | as written | input that shows it | evidently intended | confidence | as-written member | corrected member |
|---|---|---|---|---|---|---|
| util.py:28-30 | `perpendicular_dirs(m)` returns `[Loc(m.y, m.x), Loc(-m.y, -m.x)]`, a swap of the coordinates | `m = Loc(1, 1)` gives `[Loc(1, 1), Loc(-1, -1)]`: the direction itself and its reverse | the two quarter turns `Loc(-m.y, m.x)` and `Loc(m.y, -m.x)`, perpendicular for every direction and equal to the original on the four cardinal ones | not executed | Grid.PerpendicularDirsDiagonalCounterexample | Grid.PerpendicularDirsFixed |
| entity_components.py:152-156 | the `hp` setter calls `die()` every time the stored value is 0 | a fireball hitting remains (still `is_alive`) at 0 hit points runs `die()` again, awarding experience and renaming "remains of remains of ..."; n hits run it n times | `die()` runs once, when hit points drop from positive to 0 | not executed | Components.DieRefiresAtZero | Components.DiesAtMostOnce |
| engine.py:196-197 | `special_data.levels` is a `defaultdict(list)`, so `.get(level)` returns a list and `special_level.id` raises `AttributeError` | descending to depth 3, where `LevelB` is registered | take the first special level registered for the depth | not executed | NewMap.SecondDescentCrashesAsWritten | NewMap.SpecialBuiltOnce |
| entity.py:741-742 | `self.end_condition in self.engine.player.inventory` compares each carried item object with an `IDs` member, which is never equal | a started `MartinellaQuest` never completes, even in a conversation where the player carries the broken sword | the quest ends when the player carries an item tagged with the end-condition id | not executed | Entities.QuestNeverEndsAsWritten | Entities.QuestEndsWithTaggedItem |
| entity.py:190 | a hostile monster's turn calls `self.inventory.get(LightningScroll)`, but `Inventory` defines no `get` (entity_components.py:188-213) | any turn of a hostile monster that picks nothing up and is not confused raises `AttributeError` | take the first carried lightning scroll, if any | not executed | Ai.AttackCrashesAsWritten | Ai.Attack |
| entity_components.py:207-210 | `Inventory.drop` removes the item, then calls `self.game_map.place`; the player's inventory never gets a `game_map`, since the player is built without an engine and `add_engine` runs while the inventory is still empty (engine.py:173-178) | the player drops any carried item: it leaves the inventory, never reaches the map, and `AttributeError` ends the game | the item lies at the player's cell and is unequipped | not executed | Actions.PlayerDropCrashesAsWritten | Actions.Drop |

The rest of the model uses the corrected members:

- `Actions.ApplyHp` uses `Components.AssignHp`.
- `Ai.Attack` and `Ai.Choose` read the lightning scroll through `Components.FirstOfClass`.
- `Actions.Drop` is the corrected drop.
- `NewMap.NewMapKind` is the corrected special-level choice; `Session.NextLevel` models its ordinary branch.
- No modelled operation calls `perpendicular_dirs`, so the corrected directions are stated on their own.
