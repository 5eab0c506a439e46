/** Entity rules from entity.py: doors, living beings and the hostility relation, the effect
    of dying on an entity, and the quest step machine. */
module Entities {
  import opened Common
  import opened Grid
  import opened Components

  // ---------------------------------------------------------------- Door

  /** A door: `closed` (initially true) and `locked`. */
  datatype Door = Door(closed: bool, locked: bool)

  /** `Door.blocking`: a door blocks exactly while it is closed. */
  predicate DoorBlocks(d: Door)
  {
    d.closed
  }

  /** `Door.toggle()`: a locked door does not move; an unlocked one flips. */
  function Toggle(d: Door): (r: Door)
    ensures r.locked == d.locked
    ensures d.locked ==> r == d
    ensures !d.locked ==> r.closed != d.closed
  {
    if d.locked then d else d.(closed := !d.closed)
  }

  /** Toggling changes whether the door blocks iff it is unlocked, and twice is a no-op. */
  lemma ToggleFlipsBlockingIffUnlocked(d: Door)
    ensures DoorBlocks(Toggle(d)) != DoorBlocks(d) <==> !d.locked
    ensures Toggle(Toggle(d)) == d
  {
  }

  // ---------------------------------------------------------------- Beings

  /** The state of a `Living` entity (the player or a monster). `asleep` and `confused` are
      turn counters, 0 meaning "not"; `path` is the route the pathfinder last produced. */
  datatype Being = Being(
    isPlayer: bool,
    hostile: bool,
    blocking: bool,
    fighter: Fighter,
    level: CharLevel,
    inventory: Inventory,
    equipment: Equipment,
    asleep: int,
    confused: nat,
    path: seq<Loc>)

  /** `Living.hostile_to(other)`. */
  predicate HostileTo(a: Being, b: Being)
  {
    (a.hostile && b.isPlayer) || (a.isPlayer && b.hostile)
  }

  /** Hostility is symmetric and only ever links the player with a hostile being. */
  lemma HostilityIsSymmetricAndPlayerCentred(a: Being, b: Being)
    ensures HostileTo(a, b) <==> HostileTo(b, a)
    ensures HostileTo(a, b) <==> (a.isPlayer && b.hostile) || (b.isPlayer && a.hostile)
    ensures !a.isPlayer && !b.isPlayer ==> !HostileTo(a, b)
  {
  }

  // ---------------------------------------------------------------- Entities

  /** What an entity on the map is: a living being, an item lying on the floor, a door, or some
      other fixture that blocks or not. */
  datatype Body =
    | Creature(being: Being)
    | Thing(item: Item)
    | Portal(door: Door)
    | Scenery(blocks: bool)

  /** An entity on the map. `id` stands for Python object identity. */
  datatype Entity = Entity(id: nat, name: string, loc: Loc, body: Body)

  /** `entity.blocking`. */
  predicate Blocking(e: Entity)
  {
    match e.body
    case Creature(b) => b.blocking
    case Thing(_) => false
    case Portal(d) => DoorBlocks(d)
    case Scenery(bl) => bl
  }

  /** `entity.is_alive`: true for every `Living`, and never reset, so remains stay "alive". */
  predicate IsAlive(e: Entity)
  {
    e.body.Creature?
  }

  /** `entity.is_hostile`. */
  predicate IsHostile(e: Entity)
  {
    e.body.Creature? && e.body.being.hostile
  }

  predicate IsPlayer(e: Entity)
  {
    e.body.Creature? && e.body.being.isPlayer
  }

  /** The entity-side part of `Fighter.die()`: the entity becomes unblocking, non-hostile
      remains. (The experience award and the message are handled at the map level.) */
  function Remains(e: Entity): (r: Entity)
    requires e.body.Creature?
    ensures !Blocking(r) && !IsHostile(r) && IsAlive(r)
    ensures r.id == e.id && r.loc == e.loc
    ensures r.body.being.fighter == e.body.being.fighter
    ensures r.body.being.isPlayer == e.body.being.isPlayer
    ensures r.name == "remains of " + e.name
  {
    var b := e.body.being;
    e.(name := "remains of " + e.name, body := Creature(b.(blocking := false, hostile := false)))
  }

  /** Remains cannot be hostile to anyone. */
  lemma RemainsAreNotHostile(e: Entity, o: Being)
    requires e.body.Creature? && !e.body.being.isPlayer
    ensures !HostileTo(Remains(e).body.being, o) && !HostileTo(o, Remains(e).body.being)
  {
  }

  // ---------------------------------------------------------------- Quest

  /** A quest: its step (1 offered, 2 under way, 3 done), its flags and the special id of the
      item whose possession ends it. */
  datatype Quest = Quest(step: int, started: bool, completed: bool, endCondition: nat)

  function NewQuest(endCondition: nat): Quest
  {
    Quest(1, false, false, endCondition)
  }

  /** `Quest.start()`. */
  function Start(q: Quest): (r: Quest)
    ensures r.step == 2 && r.started
    ensures r.completed == q.completed && r.endCondition == q.endCondition
  {
    q.(step := 2, started := true)
  }

  /** `Quest.end()`: the step moves to 3 and the quest is completed (the reward is paid by the
      caller; see `QuestStep.rewarded`). */
  function End(q: Quest): (r: Quest)
    ensures r.step == 3 && r.completed
    ensures r.started == q.started && r.endCondition == q.endCondition
  {
    q.(step := 3, completed := true)
  }

  /** `Quest.conv`: the opening lines at step 1, the closing lines at step 3, nothing else. */
  datatype ConvPart = Initial | EndText

  function Conv(q: Quest): (r: Option<ConvPart>)
    ensures r == Some(Initial) <==> q.step == 1
    ensures r == Some(EndText) <==> q.step == 3
    ensures r.None? <==> q.step != 1 && q.step != 3
  {
    if q.step == 1 then Some(Initial)
    else if q.step == 3 then Some(EndText)
    else None
  }

  /** The result of `advance()`: the quest and whether `end()` ran (and paid the reward). */
  datatype QuestStep = QuestStep(quest: Quest, rewarded: bool)

  /** `Quest.advance()`, given whether the end condition holds. */
  function Advance(q: Quest, endMet: bool): (r: QuestStep)
    ensures !q.started ==> r == QuestStep(q, false)
    ensures q.started && q.step == 2 && endMet ==> r.quest.step == 3 && r.quest.completed && r.rewarded
    ensures q.started && !endMet ==> !r.rewarded && r.quest.completed == q.completed
    ensures q.started && q.step != 1 && q.step != 2 ==> r == QuestStep(q, false)
    ensures r.quest.endCondition == q.endCondition
  {
    if !q.started then QuestStep(q, false)
    else
      var q1 := if q.step == 1 then Start(q) else q;
      if q1.step == 2 && endMet then QuestStep(End(q1), true) else QuestStep(q1, false)
  }

  /** `check_end_condition()` AS WRITTEN: `end_condition in player.inventory` walks the items and
      compares each item OBJECT with the special id; an item never equals an id, so the test is
      false whatever the player carries. */
  predicate EndConditionAsWritten(q: Quest, items: seq<Item>)
  {
    exists k :: 0 <= k < |items| && ItemObjectEqualsId(items[k], q.endCondition)
  }

  /** Python `==` between an item object and an `IDs` member: identity, never true. */
  predicate ItemObjectEqualsId(i: Item, id: nat)
  {
    false
  }

  /** The end condition as evidently intended: the player holds an item carrying that id. */
  predicate EndCondition(q: Quest, items: seq<Item>)
  {
    exists k :: 0 <= k < |items| && items[k].tag == Some(q.endCondition)
  }

  /** One `advance()` per conversation, given what the player holds each time, with the end
      condition as written (`written`) or as intended: the quest after the last conversation
      and how many times the reward was paid. */
  function Talks(q: Quest, holds: seq<seq<Item>>, written: bool): (r: (Quest, nat))
    ensures r.0.endCondition == q.endCondition
    ensures r.1 <= |holds|
    decreases |holds|
  {
    if holds == [] then (q, 0)
    else
      var met := if written then EndConditionAsWritten(q, holds[0]) else EndCondition(q, holds[0]);
      var s := Advance(q, met);
      var rest := Talks(s.quest, holds[1..], written);
      (rest.0, rest.1 + if s.rewarded then 1 else 0)
  }

  /** As written, a started quest never ends and never pays, whatever the player carries in
      any number of conversations. */
  lemma {:induction false} QuestNeverEndsAsWritten(q: Quest, holds: seq<seq<Item>>)
    requires q.started && q.step == 2
    ensures Talks(q, holds, true) == (q, 0)
    decreases |holds|
  {
    if holds != [] {
      assert Advance(q, EndConditionAsWritten(q, holds[0])) == QuestStep(q, false);
      QuestNeverEndsAsWritten(q, holds[1..]);
    }
  }

  /** A completed quest (step 3) stays as it is and pays nothing more. */
  lemma {:induction false} EndedQuestStays(q: Quest, holds: seq<seq<Item>>, written: bool)
    requires q.started && q.step == 3
    ensures Talks(q, holds, written) == (q, 0)
    decreases |holds|
  {
    if holds != [] {
      EndedQuestStays(q, holds[1..], written);
    }
  }

  /** With the intended check, a started quest completes once the player talks while holding
      an item tagged with the end-condition id, and the reward is paid exactly once. */
  lemma {:induction false} QuestEndsWithTaggedItem(q: Quest, holds: seq<seq<Item>>, k: nat, j: nat)
    requires q.started && q.step == 2
    requires k < |holds| && j < |holds[k]| && holds[k][j].tag == Some(q.endCondition)
    ensures Talks(q, holds, false).0.completed && Talks(q, holds, false).0.step == 3
    ensures Talks(q, holds, false).1 == 1
    decreases |holds|
  {
    if EndCondition(q, holds[0]) {
      EndedQuestStays(End(q), holds[1..], false);
    } else {
      assert k > 0;
      assert Advance(q, false) == QuestStep(q, false);
      QuestEndsWithTaggedItem(q, holds[1..], k - 1, j);
    }
  }
}
