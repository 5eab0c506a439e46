/** `create_stairs` (procgen.py): up to two down stairs, the left one before the right one, and
    an up stair back to the level above, with every random choice an explicit draw. */
module Staircases {
  import opened Common
  import opened Grid
  import opened Rooms
  import opened Tiles
  import opened GameMap
  import opened Generator

  /** `Engine.max_levels`: no down stairs once this many levels have been generated. */
  const MaxLevels: int := 25
  const StairTries: nat := 50

  /** One try: `choice(rooms)` and then `choice(cells)`. */
  datatype RoomPick = RoomPick(room: nat, cell: nat)

  datatype StairDraws = StairDraws(
    first: bool,             // random() > .1: search for the first down stair
    downTries: seq<RoomPick>,
    second: bool,            // random() > .1: search for a second one
    down2Tries: seq<RoomPick>,
    leftSide: bool,          // choice(('left', 'right')) for a single down stair
    upTries: seq<RoomPick>)

  predicate StairDrawsWellFormed(d: StairDraws)
  {
    |d.downTries| == StairTries && |d.down2Tries| == StairTries && |d.upTries| == StairTries
  }

  /** The cells of `inner2_locs` not in `exclude`, in the order `inner2_locs` lists them; the
      source goes through a set, whose order the model does not fix. */
  function Candidates(room: Room, exclude: seq<Loc>): (r: seq<Loc>)
    ensures forall l :: l in r <==> l in Inner2Locs(room) && l !in exclude
  {
    Without(Inner2Locs(room), exclude)
  }

  function Without(s: seq<Loc>, exclude: seq<Loc>): (r: seq<Loc>)
    ensures forall l :: l in r <==> l in s && l !in exclude
  {
    if s == [] then []
    else
      var rest := Without(s[1..], exclude);
      assert forall l :: l in s <==> l == s[0] || l in s[1..];
      if s[0] in exclude then rest else [s[0]] + rest
  }

  /** A cell one of the rooms offers for a stair. */
  predicate InSomeInner2(rooms: seq<Room>, l: Loc)
  {
    exists k | 0 <= k < |rooms| :: l in Inner2Locs(rooms[k])
  }

  lemma Inner2InMap(rooms: seq<Room>, m: Level, l: Loc)
    requires RoomsFit(rooms) && Width(m) == MapWidth && Height(m) == MapHeight
    requires InSomeInner2(rooms, l)
    ensures InBounds(m, l)
  {
    var k :| 0 <= k < |rooms| && l in Inner2Locs(rooms[k]);
    assert Fits(rooms[k]);
  }

  /** The cell one try chooses: `choice(rooms)`, then `choice` among its candidates; none when
      there are no rooms or the room offers no candidate. */
  function Choice(rooms: seq<Room>, exclude: seq<Loc>, t: RoomPick): (r: Option<Loc>)
    ensures r.None? <==> rooms == [] || Candidates(rooms[t.room % |rooms|], exclude) == []
    ensures r.Some? ==> InSomeInner2(rooms, r.value) && r.value !in exclude
  {
    if rooms == [] then None
    else
      var cs := Candidates(rooms[t.room % |rooms|], exclude);
      if cs == [] then None
      else
        var l := cs[t.cell % |cs|];
        assert l in Inner2Locs(rooms[t.room % |rooms|]);
        Some(l)
  }

  /** The cells the tries choose, one per try. */
  function Choices(rooms: seq<Room>, exclude: seq<Loc>, tries: seq<RoomPick>): (r: seq<Option<Loc>>)
    ensures |r| == |tries|
  {
    if tries == [] then [] else [Choice(rooms, exclude, tries[0])] + Choices(rooms, exclude, tries[1..])
  }

  /** The `i`-th choice is what the `i`-th try chooses. */
  lemma {:induction false} ChoicesAt(rooms: seq<Room>, exclude: seq<Loc>, tries: seq<RoomPick>, i: nat)
    requires i < |tries|
    ensures Choices(rooms, exclude, tries)[i] == Choice(rooms, exclude, tries[i])
    decreases i
  {
    if i > 0 {
      ChoicesAt(rooms, exclude, tries[1..], i - 1);
    }
  }

  /** A choice of a cell on which no entity stands. */
  predicate Lands(c: Option<Loc>, occupied: seq<Loc>)
  {
    c.Some? && c.value !in occupied
  }

  /** `l` is the choice of the first try that lands. */
  predicate FirstLanding(cs: seq<Option<Loc>>, occupied: seq<Loc>, l: Loc)
  {
    exists i | 0 <= i < |cs| ::
      cs[i] == Some(l) && l !in occupied && forall j | 0 <= j < i :: !Lands(cs[j], occupied)
  }

  /** When the first choice does not land, the choices land exactly when the later ones do. */
  lemma LandsLater(cs: seq<Option<Loc>>, occupied: seq<Loc>)
    requires cs != [] && !Lands(cs[0], occupied)
    ensures (exists i | 0 <= i < |cs| :: Lands(cs[i], occupied))
      <==> (exists i | 0 <= i < |cs[1..]| :: Lands(cs[1..][i], occupied))
  {
    if i :| 0 <= i < |cs| && Lands(cs[i], occupied) {
      assert i != 0 && cs[1..][i - 1] == cs[i];
    }
    if i :| 0 <= i < |cs[1..]| && Lands(cs[1..][i], occupied) {
      assert cs[1..][i] == cs[i + 1];
    }
  }

  /** When the first choice does not land, the first landing among the later choices is the
      first landing overall. */
  lemma FirstLandingLater(cs: seq<Option<Loc>>, occupied: seq<Loc>, l: Loc)
    requires cs != [] && !Lands(cs[0], occupied)
    requires FirstLanding(cs[1..], occupied, l)
    ensures FirstLanding(cs, occupied, l)
  {
    var i :| 0 <= i < |cs[1..]| && cs[1..][i] == Some(l) && l !in occupied
      && forall j | 0 <= j < i :: !Lands(cs[1..][j], occupied);
    forall j | 0 <= j < i + 1 ensures !Lands(cs[j], occupied) {
      if j > 0 {
        assert cs[1..][j - 1] == cs[j];
      }
    }
    assert cs[i + 1] == Some(l);
  }

  lemma FirstLandingHere(cs: seq<Option<Loc>>, occupied: seq<Loc>)
    requires cs != [] && Lands(cs[0], occupied)
    ensures FirstLanding(cs, occupied, cs[0].value)
    ensures exists i | 0 <= i < |cs| :: Lands(cs[i], occupied)
  {
    assert cs[0] == Some(cs[0].value);
  }

  /** The choice of the first try that lands, if any. */
  function FirstLand(cs: seq<Option<Loc>>, occupied: seq<Loc>): (r: Option<Loc>)
    ensures r.Some? ==> r.value !in occupied
  {
    if cs == [] then None
    else if Lands(cs[0], occupied) then cs[0]
    else FirstLand(cs[1..], occupied)
  }

  /** `FirstLand` finds a choice exactly when some choice lands, and the one it finds is the
      first landing. */
  lemma {:induction false} FirstLandIsFirstLanding(cs: seq<Option<Loc>>, occupied: seq<Loc>)
    ensures FirstLand(cs, occupied).Some? <==> exists i | 0 <= i < |cs| :: Lands(cs[i], occupied)
    ensures FirstLand(cs, occupied).Some? ==> FirstLanding(cs, occupied, FirstLand(cs, occupied).value)
    decreases |cs|
  {
    if cs != [] {
      if Lands(cs[0], occupied) {
        FirstLandingHere(cs, occupied);
      } else {
        FirstLandIsFirstLanding(cs[1..], occupied);
        LandsLater(cs, occupied);
        if FirstLand(cs[1..], occupied).Some? {
          FirstLandingLater(cs, occupied, FirstLand(cs[1..], occupied).value);
        }
      }
    }
  }

  /** The first landing among the tries, with the first try in front. */
  lemma FirstLandStep(rooms: seq<Room>, exclude: seq<Loc>, occupied: seq<Loc>, tries: seq<RoomPick>)
    requires tries != []
    ensures FirstLand(Choices(rooms, exclude, tries), occupied) ==
      if Lands(Choice(rooms, exclude, tries[0]), occupied) then Choice(rooms, exclude, tries[0])
      else FirstLand(Choices(rooms, exclude, tries[1..]), occupied)
  {
    var cs := Choices(rooms, exclude, tries);
    assert cs[0] == Choice(rooms, exclude, tries[0]);
    assert cs[1..] == Choices(rooms, exclude, tries[1..]);
  }

  /** Where a down-stair search ended: the map, the last cell chosen (`loc`, or `0` when no try
      found a cell), and whether that cell was free and got the down-stairs tile. */
  datatype Found = Found(level: Level, loc: Option<Loc>, placed: bool)

  /** One down-stair search loop. A try that finds cells chooses one; if no entity stands there
      it becomes a down stair and the loop stops. Otherwise the choice is remembered and the
      loop goes on, so after fifty failed tries `loc` is the last occupied cell chosen. */
  function SearchDown(m: Level, rooms: seq<Room>, occupied: seq<Loc>, exclude: seq<Loc>,
                      tries: seq<RoomPick>, last: Option<Loc>): (r: Result<Found>)
    requires RoomsFit(rooms) && Width(m) == MapWidth && Height(m) == MapHeight
    ensures r.Err? <==> rooms == [] && |tries| > 0
    ensures r.Ok? ==> r.value.level == m.(tiles := r.value.level.tiles)
    ensures r.Ok? ==> Width(r.value.level) == MapWidth && Height(r.value.level) == MapHeight
    ensures r.Ok? && !r.value.placed ==> r.value.level == m
    ensures r.Ok? && r.value.placed ==>
      && r.value.loc.Some? && r.value.loc.value !in occupied && InBounds(m, r.value.loc.value)
      && TileAt(r.value.level, r.value.loc.value) == DownStairsTile
      && forall p | InBounds(m, p) && p != r.value.loc.value :: TileAt(r.value.level, p) == TileAt(m, p)
    ensures r.Ok? && r.value.loc != last ==>
      r.value.loc.Some? && InSomeInner2(rooms, r.value.loc.value) && r.value.loc.value !in exclude
    decreases |tries|
  {
    if tries == [] then Ok(Found(m, last, false))
    else if rooms == [] then Err(Fault("Cannot choose from an empty sequence"))
    else
      var c := Choice(rooms, exclude, tries[0]);
      if c.Some? && c.value !in occupied then
        Inner2InMap(rooms, m, c.value);
        Ok(Found(SetTile(m, c.value, DownStairsTile), Some(c.value), true))
      else
        SearchDown(m, rooms, occupied, exclude, tries[1..], if c.Some? then c else last)
  }

  /** A down-stair search places its stair exactly when some try chooses a cell no entity
      stands on, and then on the cell the first such try chose. */
  lemma SearchDownPlacesFirstLanding(m: Level, rooms: seq<Room>, occupied: seq<Loc>,
                                     exclude: seq<Loc>, tries: seq<RoomPick>, last: Option<Loc>)
    requires RoomsFit(rooms) && Width(m) == MapWidth && Height(m) == MapHeight
    ensures var r := SearchDown(m, rooms, occupied, exclude, tries, last);
      var cs := Choices(rooms, exclude, tries);
      && (r.Ok? ==> (r.value.placed <==> exists i | 0 <= i < |cs| :: Lands(cs[i], occupied)))
      && (r.Ok? && r.value.placed ==> FirstLanding(cs, occupied, r.value.loc.value))
  {
    SearchDownFindsFirstLand(m, rooms, occupied, exclude, tries, last);
    FirstLandIsFirstLanding(Choices(rooms, exclude, tries), occupied);
  }

  lemma {:induction false} SearchDownFindsFirstLand(m: Level, rooms: seq<Room>, occupied: seq<Loc>,
                                                    exclude: seq<Loc>, tries: seq<RoomPick>, last: Option<Loc>)
    requires RoomsFit(rooms) && Width(m) == MapWidth && Height(m) == MapHeight
    ensures var r := SearchDown(m, rooms, occupied, exclude, tries, last);
      r.Ok? ==> (r.value.placed <==> FirstLand(Choices(rooms, exclude, tries), occupied).Some?)
    ensures var r := SearchDown(m, rooms, occupied, exclude, tries, last);
      r.Ok? && r.value.placed ==> r.value.loc == FirstLand(Choices(rooms, exclude, tries), occupied)
    decreases |tries|
  {
    if tries != [] && rooms != [] {
      FirstLandStep(rooms, exclude, occupied, tries);
      var c := Choice(rooms, exclude, tries[0]);
      if !Lands(c, occupied) {
        SearchDownFindsFirstLand(m, rooms, occupied, exclude, tries[1..], if c.Some? then c else last);
      }
    }
  }

  function LocList(l: Option<Loc>): seq<Loc>
  {
    if l.Some? then [l.value] else []
  }

  /** The down stairs: two found cells become `left` and `right` in `<` order; a single one
      goes to the side drawn. */
  function SetDown(m: Level, loc: Option<Loc>, loc2: Option<Loc>, leftSide: bool): (r: Level)
    requires loc.Some? && loc2.Some? ==> loc.value != loc2.value
    requires m.left.None? && m.right.None?
    ensures r == m.(left := r.left, right := r.right)
    ensures r.left.Some? && r.right.Some? ==> Less(r.left.value.loc, r.right.value.loc)
    ensures r.left.Some? ==> r.left.value.downDir == Some(LeftSide) && r.left.value.aboveLoc.None? && r.left.value.target.None?
    ensures r.right.Some? ==> r.right.value.downDir == Some(RightSide) && r.right.value.aboveLoc.None? && r.right.value.target.None?
    ensures r.left.Some? ==> r.left.value.loc in LocList(loc) + LocList(loc2)
    ensures r.right.Some? ==> r.right.value.loc in LocList(loc) + LocList(loc2)
    ensures loc.Some? && loc2.Some? ==> r.left.Some? && r.right.Some?
    ensures loc.Some? || loc2.Some? ==> r.left.Some? || r.right.Some?
  {
    if loc.Some? && loc2.Some? then
      var (a, b) := if Less(loc2.value, loc.value) then (loc2.value, loc.value) else (loc.value, loc2.value);
      LessIsStrictTotalOrder(a, b, b);
      m.(left := Some(Stairs(a, None, Some(LeftSide), None)), right := Some(Stairs(b, None, Some(RightSide), None)))
    else if loc.Some? || loc2.Some? then
      var l := if loc.Some? then loc.value else loc2.value;
      if leftSide then m.(left := Some(Stairs(l, None, Some(LeftSide), None)))
      else m.(right := Some(Stairs(l, None, Some(RightSide), None)))
    else m
  }

  /** The up stair: the first try whose room has a cell other than the down-stair cells puts it
      there, remembering where the player stood on the level above; fifty tries without one
      raise. Unlike the down stairs it does not look for entities. */
  function PlaceUp(m: Level, rooms: seq<Room>, exclude: seq<Loc>, player: Loc, upTarget: Option<nat>,
                   tries: seq<RoomPick>): (r: Result<Level>)
    requires RoomsFit(rooms) && Width(m) == MapWidth && Height(m) == MapHeight
    ensures r.Ok? ==> r.value.up.Some? && r.value == m.(tiles := r.value.tiles, up := r.value.up)
    ensures r.Ok? ==> Width(r.value) == MapWidth && Height(r.value) == MapHeight
    ensures r.Ok? ==>
      && r.value.up.value.aboveLoc == Some(player) && r.value.up.value.target == upTarget
      && r.value.up.value.downDir.None?
      && InSomeInner2(rooms, r.value.up.value.loc) && r.value.up.value.loc !in exclude
      && InBounds(r.value, r.value.up.value.loc)
      && TileAt(r.value, r.value.up.value.loc) == UpStairsTile
      && forall p | InBounds(m, p) && p != r.value.up.value.loc :: TileAt(r.value, p) == TileAt(m, p)
    ensures (forall k | 0 <= k < |rooms| :: Candidates(rooms[k], exclude) == []) ==> r.Err?
    ensures r.Err? ==> r.failure.Fault?
    decreases |tries|
  {
    if tries == [] then Err(Fault("No tile found for up_stairs"))
    else if rooms == [] then Err(Fault("Cannot choose from an empty sequence"))
    else
      var c := Choice(rooms, exclude, tries[0]);
      if c.None? then PlaceUp(m, rooms, exclude, player, upTarget, tries[1..])
      else
        Inner2InMap(rooms, m, c.value);
        var m' := SetTile(m, c.value, UpStairsTile);
        Ok(m'.(up := Some(Stairs(c.value, Some(player), None, upTarget))))
  }

  /** Placing the up stair fails exactly when none of the tries chooses a cell, and otherwise
      uses the cell the first try that chooses one chose. */
  lemma PlaceUpTakesFirstChoice(m: Level, rooms: seq<Room>, exclude: seq<Loc>, player: Loc,
                                upTarget: Option<nat>, tries: seq<RoomPick>)
    requires RoomsFit(rooms) && Width(m) == MapWidth && Height(m) == MapHeight
    ensures var r := PlaceUp(m, rooms, exclude, player, upTarget, tries);
      var cs := Choices(rooms, exclude, tries);
      && (r.Err? <==> forall i | 0 <= i < |cs| :: cs[i].None?)
      && (r.Ok? ==> FirstLanding(cs, [], r.value.up.value.loc))
  {
    var cs := Choices(rooms, exclude, tries);
    PlaceUpFindsFirstLand(m, rooms, exclude, player, upTarget, tries);
    FirstLandIsFirstLanding(cs, []);
    assert forall i | 0 <= i < |cs| :: Lands(cs[i], []) <==> cs[i].Some?;
  }

  lemma {:induction false} PlaceUpFindsFirstLand(m: Level, rooms: seq<Room>, exclude: seq<Loc>, player: Loc,
                                                 upTarget: Option<nat>, tries: seq<RoomPick>)
    requires RoomsFit(rooms) && Width(m) == MapWidth && Height(m) == MapHeight
    ensures var r := PlaceUp(m, rooms, exclude, player, upTarget, tries);
      r.Err? <==> FirstLand(Choices(rooms, exclude, tries), []).None?
    ensures var r := PlaceUp(m, rooms, exclude, player, upTarget, tries);
      r.Ok? ==> Some(r.value.up.value.loc) == FirstLand(Choices(rooms, exclude, tries), [])
    decreases |tries|
  {
    if tries != [] {
      FirstLandStep(rooms, exclude, [], tries);
      if rooms == [] {
        NoRoomsNoChoice(rooms, exclude, tries);
      } else if Choice(rooms, exclude, tries[0]).None? {
        PlaceUpFindsFirstLand(m, rooms, exclude, player, upTarget, tries[1..]);
      }
    }
  }

  /** With no rooms no try chooses a cell, since `choice` raises on an empty sequence. */
  lemma {:induction false} NoRoomsNoChoice(rooms: seq<Room>, exclude: seq<Loc>, tries: seq<RoomPick>)
    requires rooms == []
    ensures FirstLand(Choices(rooms, exclude, tries), []).None?
    decreases |tries|
  {
    if tries != [] {
      FirstLandStep(rooms, exclude, [], tries);
      NoRoomsNoChoice(rooms, exclude, tries[1..]);
    }
  }

  /** `create_stairs` on a level above the first raises exactly when, with the down stairs in
      place, none of the fifty up-stair tries chooses a cell. */
  lemma CreateStairsFailsIffNoUpChoice(m: Level, rooms: seq<Room>, occupied: seq<Loc>, generated: int, floor: int,
                                       player: Loc, upTarget: Option<nat>, d: StairDraws)
    requires RoomsFit(rooms) && Width(m) == MapWidth && Height(m) == MapHeight
    requires StairDrawsWellFormed(d)
    requires m.left.None? && m.right.None? && m.up.None?
    requires floor > 0 && PlaceDownStairs(m, rooms, occupied, generated, d).Ok?
    ensures var down := PlaceDownStairs(m, rooms, occupied, generated, d).value;
      var cs := Choices(rooms, LocList(down.1) + LocList(down.2), d.upTries);
      CreateStairs(m, rooms, occupied, generated, floor, player, upTarget, d).Err? <==>
        forall i | 0 <= i < |cs| :: cs[i].None?
  {
    var down := PlaceDownStairs(m, rooms, occupied, generated, d).value;
    PlaceUpTakesFirstChoice(down.0, rooms, LocList(down.1) + LocList(down.2), player, upTarget, d.upTries);
  }

  /** The down-stair half of `create_stairs`: the map with its down stairs, and the cells the two
      searches ended on. */
  function PlaceDownStairs(m: Level, rooms: seq<Room>, occupied: seq<Loc>, generated: int, d: StairDraws)
    : (r: Result<(Level, Option<Loc>, Option<Loc>)>)
    requires RoomsFit(rooms) && Width(m) == MapWidth && Height(m) == MapHeight
    requires m.left.None? && m.right.None?
    ensures r.Ok? ==> Width(r.value.0) == MapWidth && Height(r.value.0) == MapHeight
    ensures r.Ok? ==> r.value.0 == m.(tiles := r.value.0.tiles, left := r.value.0.left, right := r.value.0.right)
    ensures r.Ok? && r.value.0.left.Some? && r.value.0.right.Some? ==>
      Less(r.value.0.left.value.loc, r.value.0.right.value.loc)
    ensures r.Ok? && r.value.0.left.Some? ==>
      r.value.0.left.value.downDir == Some(LeftSide) && r.value.0.left.value.target.None? && r.value.0.left.value.loc in LocList(r.value.1) + LocList(r.value.2)
    ensures r.Ok? && r.value.0.right.Some? ==>
      r.value.0.right.value.downDir == Some(RightSide) && r.value.0.right.value.target.None? && r.value.0.right.value.loc in LocList(r.value.1) + LocList(r.value.2)
    ensures generated > MaxLevels ==> r == Ok((m, None, None))
    ensures r.Err? ==> r.failure.Fault?
  {
    if generated > MaxLevels then Ok((m, None, None))
    else
      var first := if d.first then SearchDown(m, rooms, occupied, [], d.downTries, None) else Ok(Found(m, None, false));
      if first.Err? then Err(first.failure)
      else
        var loc := first.value.loc;
        var m1 := first.value.level;
        var second := if loc.None? || d.second
          then SearchDown(m1, rooms, occupied, LocList(loc), d.down2Tries, None)
          else Ok(Found(m1, None, false));
        if second.Err? then Err(second.failure)
        else
          var loc2 := second.value.loc;
          assert loc.Some? && loc2.Some? ==> loc.value != loc2.value;
          Ok((SetDown(second.value.level, loc, loc2, d.leftSide), loc, loc2))
  }

  /** `create_stairs`. `generated` is `engine.total_levels` (the levels generated before this
      one) and `floor` is `engine.level`, the number of the level being made: `down()` raises it
      before `new_map` runs. */
  function CreateStairs(m: Level, rooms: seq<Room>, occupied: seq<Loc>, generated: int, floor: int,
                        player: Loc, upTarget: Option<nat>, d: StairDraws): (r: Result<Level>)
    requires RoomsFit(rooms) && Width(m) == MapWidth && Height(m) == MapHeight
    requires StairDrawsWellFormed(d)
    requires m.left.None? && m.right.None? && m.up.None?
    ensures r.Ok? ==> Width(r.value) == MapWidth && Height(r.value) == MapHeight
    ensures r.Ok? ==> r.value == m.(tiles := r.value.tiles, left := r.value.left, right := r.value.right, up := r.value.up)
    ensures r.Ok? && r.value.left.Some? && r.value.right.Some? ==>
      Less(r.value.left.value.loc, r.value.right.value.loc)
    ensures r.Ok? && r.value.left.Some? ==> r.value.left.value.downDir == Some(LeftSide) && r.value.left.value.target.None?
    ensures r.Ok? && r.value.right.Some? ==> r.value.right.value.downDir == Some(RightSide) && r.value.right.value.target.None?
    ensures r.Ok? ==> (r.value.up.Some? <==> floor > 0)
    ensures r.Ok? && r.value.up.Some? ==>
      && r.value.up.value.aboveLoc == Some(player) && r.value.up.value.target == upTarget
      && InBounds(r.value, r.value.up.value.loc)
      && TileAt(r.value, r.value.up.value.loc) == UpStairsTile
      && InSomeInner2(rooms, r.value.up.value.loc)
      && (r.value.left.Some? ==> r.value.up.value.loc != r.value.left.value.loc)
      && (r.value.right.Some? ==> r.value.up.value.loc != r.value.right.value.loc)
    ensures generated > MaxLevels && r.Ok? ==> r.value.left.None? && r.value.right.None?
    ensures floor > 0 && (forall k | 0 <= k < |rooms| :: Inner2Locs(rooms[k]) == []) ==> r.Err?
    ensures r.Err? ==> r.failure.Fault?
  {
    match PlaceDownStairs(m, rooms, occupied, generated, d)
    case Err(f) => Err(f)
    case Ok((m1, loc, loc2)) =>
      if floor > 0 then
        var exclude := LocList(loc) + LocList(loc2);
        assert forall k | 0 <= k < |rooms| && Inner2Locs(rooms[k]) == [] :: Candidates(rooms[k], exclude) == [];
        PlaceUp(m1, rooms, exclude, player, upTarget, d.upTries)
      else Ok(m1)
  }
}
