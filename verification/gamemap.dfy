/** The tile map of one dungeon level (game_map.py `GameMap` and `Stairs`). */
module GameMap {
  import opened Common
  import opened Grid
  import opened Rooms
  import opened Tiles
  import opened Entities

  /** The tile array, indexed `[x][y]` like the numpy array it models: every column has the
      same height. */
  predicate Rectangular(g: seq<seq<Tile>>)
  {
    forall i | 0 <= i < |g| :: |g[i]| == |g[0]|
  }

  type TileGrid = g: seq<seq<Tile>> | Rectangular(g) witness []

  /** A grid of the given size filled with one tile (`np.full`). */
  function Filled(width: nat, height: nat, t: Tile): (g: TileGrid)
    ensures |g| == width
    ensures forall x | 0 <= x < width :: |g[x]| == height
    ensures forall x, y | 0 <= x < width && 0 <= y < height :: g[x][y] == t
  {
    seq(width, _ => seq(height, _ => t))
  }

  datatype Side = LeftSide | RightSide

  /** `Stairs`: where it is, where the player stood on the level above (up stairs only), which
      side it leads down to (down stairs only) and the level it leads to, by index, once known. */
  datatype Stairs = Stairs(loc: Loc, aboveLoc: Option<Loc>, downDir: Option<Side>, target: Option<nat>)

  /** A `GameMap`. Python keeps the entities in a set; here they are a sequence, and the
      sequence order stands for the set's iteration order. */
  datatype Level = Level(
    tiles: TileGrid,
    visible: set<Loc>,
    entities: seq<Entity>,
    rooms: seq<Room>,
    up: Option<Stairs>,
    left: Option<Stairs>,
    right: Option<Stairs>,
    depth: int)

  function Width(m: Level): nat { |m.tiles| }
  function Height(m: Level): nat { if |m.tiles| == 0 then 0 else |m.tiles[0]| }

  /** A fresh all-wall level with the given entities (`GameMap.__init__`). */
  function NewLevel(width: nat, height: nat, entities: seq<Entity>, depth: int): (m: Level)
    ensures width > 0 ==> Width(m) == width && Height(m) == height
    ensures forall l | InBounds(m, l) :: TileAt(m, l) == WallTile
    ensures m.visible == {} && m.entities == entities && m.rooms == []
  {
    Level(Filled(width, height, WallTile), {}, entities, [], None, None, None, depth)
  }

  /** `in_bounds(loc)`. */
  predicate InBounds(m: Level, l: Loc)
  {
    0 <= l.x < Width(m) && 0 <= l.y < Height(m)
  }

  /** Being in bounds is exactly being a valid index pair of the tile array. */
  lemma InBoundsIsValidIndex(m: Level, l: Loc)
    ensures InBounds(m, l) <==> 0 <= l.x < |m.tiles| && 0 <= l.y < |m.tiles[l.x]|
  {
  }

  function TileAt(m: Level, l: Loc): Tile
    requires InBounds(m, l)
  {
    m.tiles[l.x][l.y]
  }

  /** `dungeon.tiles[x, y] = t`: one cell changes, nothing else. */
  function SetTile(m: Level, l: Loc, t: Tile): (r: Level)
    requires InBounds(m, l)
    ensures Width(r) == Width(m) && Height(r) == Height(m)
    ensures TileAt(r, l) == t
    ensures forall p | InBounds(m, p) && p != l :: TileAt(r, p) == TileAt(m, p)
    ensures r == m.(tiles := r.tiles)
  {
    var col := m.tiles[l.x][l.y := t];
    var g := m.tiles[l.x := col];
    assert Rectangular(g) by {
      forall i | 0 <= i < |g| ensures |g[i]| == |g[0]| {
        assert |m.tiles[i]| == |m.tiles[0]|;
      }
    }
    m.(tiles := g)
  }

  /** `walkable(loc)`. numpy would wrap negative indices; every caller checks bounds first. */
  predicate Walkable(m: Level, l: Loc)
    requires InBounds(m, l)
  {
    TileAt(m, l).walkable
  }

  /** `in_bounds(l) and walkable(l)`. */
  predicate OpenCell(m: Level, l: Loc)
  {
    InBounds(m, l) && Walkable(m, l)
  }

  /** `get_blocking_entity_at_loc(loc)`: the index of the first blocking entity standing there. */
  function BlockingAt(es: seq<Entity>, l: Loc): (r: Option<nat>)
    ensures r.Some? ==> r.value < |es| && Blocking(es[r.value]) && es[r.value].loc == l
    ensures r.Some? ==> forall k | 0 <= k < r.value :: !(Blocking(es[k]) && es[k].loc == l)
    ensures r.None? <==> forall k | 0 <= k < |es| :: !(Blocking(es[k]) && es[k].loc == l)
  {
    if es == [] then None
    else if Blocking(es[0]) && es[0].loc == l then Some(0)
    else
      var t := BlockingAt(es[1..], l);
      if t.Some? then Some(t.value + 1) else None
  }

  function GetBlockingEntityAt(m: Level, l: Loc): (r: Option<nat>)
    ensures r.Some? ==> r.value < |m.entities| && Blocking(m.entities[r.value]) && m.entities[r.value].loc == l
    ensures r.None? <==> forall e | e in m.entities :: !(Blocking(e) && e.loc == l)
  {
    var r := BlockingAt(m.entities, l);
    assert r.None? <==> forall e | e in m.entities :: !(Blocking(e) && e.loc == l) by {
      if r.Some? {
        assert m.entities[r.value] in m.entities;
      }
    }
    r
  }

  /** `empty(loc)`. */
  predicate Empty(m: Level, l: Loc)
  {
    InBounds(m, l) && Walkable(m, l) && GetBlockingEntityAt(m, l).None?
  }

  /** A cell is empty iff it is in bounds, walkable and no blocking entity stands on it. */
  lemma EmptyIff(m: Level, l: Loc)
    ensures Empty(m, l) <==>
      && InBounds(m, l)
      && TileAt(m, l).walkable
      && forall e | e in m.entities :: !(Blocking(e) && e.loc == l)
  {
  }

  /** `entities_within_dist(loc, dist)`: entities within Chebyshev distance `d`, except those
      standing exactly on `loc`, in iteration order. */
  function EntitiesWithinDist(es: seq<Entity>, l: Loc, d: int): (r: seq<Entity>)
    ensures forall e :: e in r <==> e in es && Dist(e.loc, l) <= d && e.loc != l
    ensures |r| <= |es|
  {
    if es == [] then []
    else
      var rest := EntitiesWithinDist(es[1..], l, d);
      assert forall e :: e in es <==> e == es[0] || e in es[1..];
      if Dist(es[0].loc, l) <= d && es[0].loc != l then [es[0]] + rest else rest
  }

  /** `make_turn()`: every room's `auspicious` counter drops by one, stopping at 0. */
  function MakeTurn(rooms: seq<Room>): (r: seq<Room>)
    ensures |r| == |rooms|
    ensures forall i | 0 <= i < |r| :: r[i] == rooms[i].(auspicious := r[i].auspicious)
    ensures forall i | 0 <= i < |r| ::
      (rooms[i].auspicious > 0 ==> r[i].auspicious == rooms[i].auspicious - 1) &&
      (rooms[i].auspicious == 0 ==> r[i].auspicious == 0)
  {
    if rooms == [] then []
    else [rooms[0].(auspicious := Max(0, rooms[0].auspicious - 1))] + MakeTurn(rooms[1..])
  }

  /** After `n` turns a room's counter is `max(0, a - n)`. */
  lemma {:induction false} MakeTurnRepeated(rooms: seq<Room>, n: nat, i: nat)
    requires i < |rooms|
    ensures |TurnsPassed(rooms, n)| == |rooms|
    ensures TurnsPassed(rooms, n)[i].auspicious == Max(0, rooms[i].auspicious - n)
    decreases n
  {
    if n > 0 {
      MakeTurnRepeated(rooms, n - 1, i);
    }
  }

  function TurnsPassed(rooms: seq<Room>, n: nat): seq<Room>
    decreases n
  {
    if n == 0 then rooms else MakeTurn(TurnsPassed(rooms, n - 1))
  }

  /** `find_room(loc)`: the first room whose inclusive rectangle contains `loc`. */
  function FindRoom(rooms: seq<Room>, l: Loc): (r: Option<Room>)
    ensures r.Some? ==> r.value in rooms && Contains(r.value, l)
    ensures r.None? <==> forall k | 0 <= k < |rooms| :: !Contains(rooms[k], l)
  {
    if rooms == [] then None
    else if Contains(rooms[0], l) then Some(rooms[0])
    else FindRoom(rooms[1..], l)
  }

  /** `get_down_map(loc)`: the left stair when there is one and `loc` is on it, else the right. */
  function GetDownMap(m: Level, l: Loc): (r: Option<Stairs>)
    ensures r == m.left <==> (m.left.Some? && m.left.value.loc == l) || m.left == m.right
    ensures !(m.left.Some? && m.left.value.loc == l) ==> r == m.right
  {
    if m.left.Some? && LocEq(l, Some(m.left.value.loc)) then m.left else m.right
  }

  // ---------------------------------------------------------------- find_walkable

  /** The cell before the walkable hit has a walkable neighbour across the walking direction
      (checked left/right when walking vertically, above/below when walking horizontally). */
  predicate SideOpen(m: Level, prev: Loc, dir: Loc)
  {
    (dir.x == 0 && (OpenCell(m, Mod(prev, 1, 0)) || OpenCell(m, Mod(prev, -1, 0)))) ||
    (dir.y == 0 && (OpenCell(m, Mod(prev, 0, 1)) || OpenCell(m, Mod(prev, 0, -1))))
  }

  const WalkLimit: nat := 100

  /** The loop of `find_walkable`: `l` holds the start and the non-walkable cells passed so far;
      `steps` counts the iterations made. */
  function Walk(m: Level, l: seq<Loc>, dir: Loc, steps: nat): Option<seq<Loc>>
    requires |l| >= 1
    decreases WalkLimit - steps
  {
    if steps >= WalkLimit then None
    else
      var prev := l[|l| - 1];
      var next := Add(prev, dir);
      if !InBounds(m, next) then None
      else if Walkable(m, next) then (if SideOpen(m, prev, dir) then None else Some(l))
      else Walk(m, l + [next], dir, steps + 1)
  }

  /** A run from `start`: each cell one `dir` further than the one before. */
  predicate Consecutive(l: seq<Loc>, dir: Loc)
  {
    forall i | 0 <= i < |l| - 1 :: l[i + 1] == Add(l[i], dir)
  }

  /** What a successful search found: the start and then in-bounds, non-walkable cells, each one
      step further, at most 100 cells, with a walkable cell right after the last one and no
      walkable neighbour across the direction beside the last one. */
  predicate WalkFound(m: Level, start: Loc, dir: Loc, l: seq<Loc>)
  {
    && 1 <= |l| <= WalkLimit
    && l[0] == start
    && Consecutive(l, dir)
    && (forall i | 1 <= i < |l| :: InBounds(m, l[i]) && !Walkable(m, l[i]))
    && OpenCell(m, Add(l[|l| - 1], dir))
    && !SideOpen(m, l[|l| - 1], dir)
  }

  lemma {:induction false} WalkSound(m: Level, start: Loc, l: seq<Loc>, dir: Loc, steps: nat)
    requires |l| == steps + 1 && steps <= WalkLimit
    requires l[0] == start && Consecutive(l, dir)
    requires forall i | 1 <= i < |l| :: InBounds(m, l[i]) && !Walkable(m, l[i])
    ensures Walk(m, l, dir, steps).Some? ==> WalkFound(m, start, dir, Walk(m, l, dir, steps).value)
    decreases WalkLimit - steps
  {
    if steps < WalkLimit {
      var next := Add(l[|l| - 1], dir);
      if InBounds(m, next) && !Walkable(m, next) {
        WalkSound(m, start, l + [next], dir, steps + 1);
      }
    }
  }

  lemma {:induction false} WalkComplete(m: Level, start: Loc, found: seq<Loc>, dir: Loc, steps: nat)
    requires WalkFound(m, start, dir, found)
    requires 1 <= steps + 1 <= |found|
    ensures Walk(m, found[..steps + 1], dir, steps) == Some(found)
    decreases |found| - steps
  {
    var l := found[..steps + 1];
    var next := Add(l[|l| - 1], dir);
    if steps + 1 == |found| {
      assert l == found;
    } else {
      assert next == found[steps + 1];
      assert found[..steps + 2] == l + [next];
      WalkComplete(m, start, found, dir, steps + 1);
    }
  }

  /** `find_walkable(loc, dir)`. */
  function FindWalkable(m: Level, start: Loc, dir: Loc): (r: Option<seq<Loc>>)
    ensures r.Some? ==> WalkFound(m, start, dir, r.value)
  {
    WalkSound(m, start, [start], dir, 0);
    Walk(m, [start], dir, 0)
  }

  /** Conversely, any run that fits the description is exactly what the search returns, so the
      result is determined by the map. */
  lemma FindWalkableFindsEveryRun(m: Level, start: Loc, dir: Loc, found: seq<Loc>)
    requires WalkFound(m, start, dir, found)
    ensures FindWalkable(m, start, dir) == Some(found)
  {
    assert found[..1] == [start];
    WalkComplete(m, start, found, dir, 0);
  }

  // ---------------------------------------------------------------- serialize / load

  /** What `serialize()` writes: the tile array and the three stair locations. (The JSON text and
      the numpy encoding are not modelled; width and height are the array's shape.) */
  datatype SavedMap = SavedMap(tiles: TileGrid, up: Option<Loc>, left: Option<Loc>, right: Option<Loc>)

  function LocOf(s: Option<Stairs>): (r: Option<Loc>)
    ensures r.Some? <==> s.Some?
    ensures s.Some? ==> r.value == s.value.loc
  {
    if s.Some? then Some(s.value.loc) else None
  }

  function Serialize(m: Level): SavedMap
  {
    SavedMap(m.tiles, LocOf(m.up), LocOf(m.left), LocOf(m.right))
  }

  function StairsAt(l: Option<Loc>, dir: Option<Side>): (r: Option<Stairs>)
    ensures LocOf(r) == l
    ensures r.Some? ==> r.value.downDir == dir && r.value.aboveLoc.None? && r.value.target.None?
  {
    if l.Some? then Some(Stairs(l.value, None, dir, None)) else None
  }

  /** `GameMap.load(data)`: a level 1 map with no entities, the saved tiles, an up stair and
      left/right down stairs carrying their direction. */
  function Load(d: SavedMap): (r: Level)
    ensures r.tiles == d.tiles && r.depth == 1 && r.entities == [] && r.visible == {}
    ensures LocOf(r.up) == d.up && LocOf(r.left) == d.left && LocOf(r.right) == d.right
    ensures r.left.Some? ==> r.left.value.downDir == Some(LeftSide)
    ensures r.right.Some? ==> r.right.value.downDir == Some(RightSide)
  {
    Level(d.tiles, {}, [], [], StairsAt(d.up, None), StairsAt(d.left, Some(LeftSide)),
          StairsAt(d.right, Some(RightSide)), 1)
  }

  /** Loading what was saved keeps the tiles and every stair location; saving the loaded map
      again gives the same data. */
  lemma SaveLoadRoundTrip(m: Level, d: SavedMap)
    ensures Load(Serialize(m)).tiles == m.tiles
    ensures LocOf(Load(Serialize(m)).up) == LocOf(m.up)
    ensures LocOf(Load(Serialize(m)).left) == LocOf(m.left)
    ensures LocOf(Load(Serialize(m)).right) == LocOf(m.right)
    ensures Serialize(Load(d)) == d
  {
  }
}
