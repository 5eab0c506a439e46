/** One level from start to finish: `generate_dungeon` (procgen.py), which runs the room loop,
    `create_stairs` and `hidden_room` in turn. */
module Dungeon {
  import opened Common
  import opened Grid
  import opened Rooms
  import opened Tiles
  import opened GameMap
  import opened Generator
  import opened Staircases
  import opened HiddenRooms

  /** Every random draw `generate_dungeon` makes, in the order it makes them. */
  datatype DungeonDraws = DungeonDraws(rooms: seq<RoomDraws>, stairs: StairDraws, hidden: seq<(nat, nat)>)

  predicate DungeonDrawsWellFormed(d: DungeonDraws)
  {
    && |d.rooms| == MaxRooms && (forall i | 0 <= i < |d.rooms| :: WellFormed(d.rooms[i]))
    && StairDrawsWellFormed(d.stairs) && |d.hidden| == HiddenTries
  }

  /** Each down stair is tagged with the side it is stored under, and two down stairs stand on
      different cells. */
  predicate Sided(m: Level)
  {
    && (m.left.Some? ==> m.left.value.downDir == Some(LeftSide))
    && (m.right.Some? ==> m.right.value.downDir == Some(RightSide))
    && (m.left.Some? && m.right.Some? ==> m.left.value.loc != m.right.value.loc)
  }

  /** The down stairs lead nowhere yet: their levels are made on the first descent. */
  predicate Unexplored(m: Level)
  {
    (m.left.Some? ==> m.left.value.target.None?) && (m.right.Some? ==> m.right.value.target.None?)
  }

  /** What a freshly generated level numbered `floor` looks like: full size, at depth `floor + 1`, rooms in
      the map and apart, down stairs sided and leading nowhere yet, and an up stair exactly when
      there is a level above, on a room's cell, with the up-stairs tile, remembering where the
      player stood and which map it leads back to. */
  predicate Made(m: Level, floor: int, player: Loc, upTarget: Option<nat>)
  {
    && Width(m) == MapWidth && Height(m) == MapHeight && m.depth == floor + 1
    && |m.rooms| <= MaxRooms && RoomsFit(m.rooms) && RoomsApart(m.rooms)
    && Sided(m) && Unexplored(m)
    && (m.up.Some? <==> floor > 0)
    && (m.up.Some? ==>
          && m.up.value.aboveLoc == Some(player) && m.up.value.target == upTarget
          && InSomeInner2(m.rooms, m.up.value.loc)
          && InBounds(m, m.up.value.loc) && TileAt(m, m.up.value.loc) == UpStairsTile)
  }

  /** `generate_dungeon(...)` for the level numbered `floor` (`engine.level`, which `down()` has
      already raised). `generated` is
      `engine.total_levels` and `upTarget` the map the up stair leads back to. The result is
      the map and where the player stands afterwards. */
  function GenerateDungeon(player: Loc, floor: int, generated: int, upTarget: Option<nat>, d: DungeonDraws)
    : (r: Result<(Level, Loc)>)
    requires floor >= 0 && DungeonDrawsWellFormed(d)
    ensures r.Ok? ==> Made(r.value.0, floor, player, upTarget)
    ensures r.Ok? && floor > 0 ==> r.value.1 == player
    ensures r.Ok? && floor == 0 && r.value.0.rooms != [] ==> r.value.1 == Center(r.value.0.rooms[0])
    ensures generated > MaxLevels && r.Ok? ==> r.value.0.left.None? && r.value.0.right.None?
    ensures r.Err? ==> r.failure.Fault?
  {
    var g := Generate(player, floor, d.rooms);
    match CreateStairs(g.level, g.rooms, Occupied(g), generated, floor, g.player, upTarget, d.stairs)
    case Err(f) => Err(f)
    case Ok(m) =>
      StairsMade(g, floor, player, upTarget, generated, d.stairs);
      Ok((WithHiddenRoom(m.(rooms := g.rooms), d.hidden, floor, player, upTarget), g.player))
  }

  /** The room loop and `create_stairs` together give a `Made` level. */
  lemma StairsMade(g: Gen, floor: int, player: Loc, upTarget: Option<nat>, generated: int, d: StairDraws)
    requires floor >= 0 && StairDrawsWellFormed(d)
    requires Width(g.level) == MapWidth && Height(g.level) == MapHeight
    requires RoomsFit(g.rooms) && RoomsApart(g.rooms) && |g.rooms| <= MaxRooms && g.level.depth == floor + 1
    requires g.level.up.None? && g.level.left.None? && g.level.right.None?
    requires floor != 0 ==> g.player == player
    ensures var r := CreateStairs(g.level, g.rooms, Occupied(g), generated, floor, g.player, upTarget, d);
      r.Ok? ==> Made(r.value.(rooms := g.rooms), floor, player, upTarget)
    ensures var r := CreateStairs(g.level, g.rooms, Occupied(g), generated, floor, g.player, upTarget, d);
      r.Ok? && generated > MaxLevels ==> r.value.left.None? && r.value.right.None?
  {
    var r := CreateStairs(g.level, g.rooms, Occupied(g), generated, floor, g.player, upTarget, d);
    if r.Ok? {
      var m := r.value;
      var m1 := m.(rooms := g.rooms);
      assert Width(m1) == MapWidth && Height(m1) == MapHeight && m1.depth == floor + 1;
      assert Sided(m1) by {
        if m.left.Some? && m.right.Some? {
          LessIsStrictTotalOrder(m.left.value.loc, m.right.value.loc, m.right.value.loc);
        }
      }
      assert Unexplored(m1);
      assert m1.up.Some? ==>
        && m1.up.value.aboveLoc == Some(player) && m1.up.value.target == upTarget
        && InSomeInner2(m1.rooms, m1.up.value.loc)
        && InBounds(m1, m1.up.value.loc) && TileAt(m1, m1.up.value.loc) == UpStairsTile;
    }
  }

  /** The last step of `generate_dungeon`: `hidden_room` keeps everything `Made` says. */
  function WithHiddenRoom(m: Level, draws: seq<(nat, nat)>, floor: int, player: Loc, upTarget: Option<nat>): (r: Level)
    requires Made(m, floor, player, upTarget)
    ensures Made(r, floor, player, upTarget)
    ensures r == m.(tiles := r.tiles)
  {
    HiddenRoomKeepsMade(m, draws, floor, player, upTarget);
    HiddenRoom(m, m.rooms, draws).0
  }

  lemma HiddenRoomKeepsMade(m: Level, draws: seq<(nat, nat)>, floor: int, player: Loc, upTarget: Option<nat>)
    requires Made(m, floor, player, upTarget)
    ensures Made(HiddenRoom(m, m.rooms, draws).0, floor, player, upTarget)
  {
    var m2 := HiddenRoom(m, m.rooms, draws).0;
    assert m2 == m.(tiles := m2.tiles);
    if m2.up.Some? {
      UpStairSpared(m, draws, floor, player, upTarget);
    }
  }

  lemma UpStairSpared(m: Level, draws: seq<(nat, nat)>, floor: int, player: Loc, upTarget: Option<nat>)
    requires Made(m, floor, player, upTarget) && m.up.Some?
    ensures InBounds(HiddenRoom(m, m.rooms, draws).0, m.up.value.loc)
    ensures TileAt(HiddenRoom(m, m.rooms, draws).0, m.up.value.loc) == UpStairsTile
  {
    var l := m.up.value.loc;
    var k :| 0 <= k < |m.rooms| && l in Inner2Locs(m.rooms[k]);
    HiddenRoomSparesRooms(m, m.rooms, draws, k, l);
  }

  /** A point inside two rooms makes them intersect. */
  lemma SharedCellIntersects(a: Room, b: Room, p: Loc)
    requires Contains(a, p) && Contains(b, p)
    ensures Intersects(a, b)
  {
  }

  /** `hidden_room` changes no walkable cell inside a room: its tunnel cells past the first are
      walls, and the first one and the hidden room itself are apart from every room. */
  lemma HiddenRoomSparesRooms(m: Level, rooms: seq<Room>, draws: seq<(nat, nat)>, k: nat, p: Loc)
    requires Width(m) >= 6 && Height(m) >= 6
    requires k < |rooms| && Contains(rooms[k], p) && OpenCell(m, p)
    ensures InBounds(HiddenRoom(m, rooms, draws).0, p)
    ensures TileAt(HiddenRoom(m, rooms, draws).0, p) == TileAt(m, p)
  {
    var r := HiddenRoom(m, rooms, draws);
    if r.1.Some? {
      var h := r.1.value;
      OutsideHiddenRoom(m, h, rooms[k], p);
      CarvedKeeps(m, h, r.0, p);
    }
  }

  /** A walkable cell of a room apart from the hidden room is neither in the hidden room nor on
      its tunnel. */
  lemma OutsideHiddenRoom(m: Level, h: Hidden, room: Room, p: Loc)
    requires Small(m, h.room) && !Intersects(h.room, room) && h.probe < 4
    requires FindWalkable(m, Probes(h.room)[h.probe].0, Probes(h.room)[h.probe].1) == Some(h.tunnel)
    requires Contains(room, p) && OpenCell(m, p)
    ensures p !in h.tunnel && !InInner(h.room, p)
  {
    if InInner(h.room, p) {
      SharedCellIntersects(h.room, room, p);
    }
    if p in h.tunnel {
      var i :| 0 <= i < |h.tunnel| && h.tunnel[i] == p;
      if i == 0 {
        SharedCellIntersects(h.room, room, p);
      }
    }
  }

  lemma CarvedKeeps(m: Level, h: Hidden, m': Level, p: Loc)
    requires h.probe < 4 && |h.tunnel| >= 1 && CarvedAs(m, h, m')
    requires InBounds(m, p) && p !in h.tunnel && !InInner(h.room, p)
    ensures InBounds(m', p) && TileAt(m', p) == TileAt(m, p)
  {
  }
}
