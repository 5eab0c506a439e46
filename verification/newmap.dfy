/** The choice `new_map` (engine.py) makes between a special level and an ordinary one. */
module NewMap {
  import opened Common

  /** The special levels of `special_data`: `LevelA` at depth 10 with one given room and
      `LevelB` at depth 3 on the custom map `'a'`. */
  datatype LevelId = LevelA | LevelB
  datatype SpecialLevel = SpecialLevel(id: LevelId, level: int, customMap: bool)

  const SpecialLevels: seq<SpecialLevel> := [SpecialLevel(LevelA, 10, false), SpecialLevel(LevelB, 3, true)]

  /** `special_data.levels[level]`: the special levels registered for that depth, in order. */
  function LevelsAt(level: int): (r: seq<SpecialLevel>)
    ensures forall s :: s in r <==> s in SpecialLevels && s.level == level
  {
    Filter(SpecialLevels, level)
  }

  function Filter(ss: seq<SpecialLevel>, level: int): (r: seq<SpecialLevel>)
    ensures forall s :: s in r <==> s in ss && s.level == level
    ensures |r| <= |ss|
  {
    if ss == [] then []
    else
      assert forall s :: s in ss <==> s == ss[0] || s in ss[1..];
      (if ss[0].level == level then [ss[0]] else []) + Filter(ss[1..], level)
  }

  /** What `new_map` builds: a special level or an ordinary one. */
  datatype MapKind = Special(s: SpecialLevel) | Ordinary

  /** The choice in `new_map` as written. `special_data.levels` is a `defaultdict(list)`, so
      `.get(level)` is `None` for an unregistered depth but a list for a registered one, and
      `special_level.id` on that list raises. */
  function NewMapKindAsWritten(engineLevel: int, specials: set<LevelId>): (r: Result<MapKind>)
    ensures r.Err? <==> LevelsAt(engineLevel + 1) != []
    ensures r.Ok? ==> r.value == Ordinary
  {
    var found := LevelsAt(engineLevel + 1);
    if found == [] then Ok(Ordinary)
    else Err(Fault("'list' object has no attribute 'id'"))
  }

  /** The crash shows on the second descent: `new_map` runs with `engine.level == 2`, for
      depth 3, where `LevelB` is registered. */
  lemma SecondDescentCrashesAsWritten()
    ensures NewMapKindAsWritten(2, {}).Err?
  {
    assert SpecialLevels[1] in LevelsAt(3);
  }

  /** The choice as intended: the first special level registered for the depth, unless one with
      its id was already built, in which case an ordinary level. */
  function NewMapKind(engineLevel: int, specials: set<LevelId>): (r: MapKind)
    ensures r.Special? ==> r.s in SpecialLevels && r.s.level == engineLevel + 1 && r.s.id !in specials
    ensures r.Ordinary? <==> LevelsAt(engineLevel + 1) == [] || LevelsAt(engineLevel + 1)[0].id in specials
  {
    var found := LevelsAt(engineLevel + 1);
    if found == [] || found[0].id in specials then Ordinary
    else
      assert found[0] in found;
      Special(found[0])
  }

  /** `engine.specials[special_level.id] = dungeon`: the ids of special levels built so far. */
  function Register(k: MapKind, specials: set<LevelId>): (r: set<LevelId>)
    ensures k.Special? ==> r == specials + {k.s.id}
    ensures k.Ordinary? ==> r == specials
  {
    match k
    case Special(s) => specials + {s.id}
    case Ordinary => specials
  }

  /** A special level is built at most once: once registered, the same depth gives an ordinary
      level. */
  lemma SpecialBuiltOnce(engineLevel: int, specials: set<LevelId>)
    ensures NewMapKind(engineLevel, Register(NewMapKind(engineLevel, specials), specials)).Ordinary?
  {
  }

  /** The depths with a special level are exactly 3 and 10; everywhere else `new_map` builds an
      ordinary level, whatever was built before. */
  lemma SpecialDepths(engineLevel: int, specials: set<LevelId>)
    ensures NewMapKind(engineLevel, {}).Special? <==> engineLevel + 1 == 3 || engineLevel + 1 == 10
    ensures engineLevel + 1 != 3 && engineLevel + 1 != 10 ==> NewMapKind(engineLevel, specials) == Ordinary
  {
    if engineLevel + 1 == 3 { assert SpecialLevels[1] in LevelsAt(3); }
    if engineLevel + 1 == 10 { assert SpecialLevels[0] in LevelsAt(10); }
  }
}
