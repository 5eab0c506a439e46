/** The room-and-tunnel loop of `generate_dungeon` (procgen.py) on the 80 x 45 map `new_map`
    asks for, with every random number an explicit draw. */
module Generator {
  import opened Common
  import opened Grid
  import opened Rooms
  import opened Corridors
  import opened Tiles
  import opened GameMap
  import opened Spawning

  const MapWidth: nat := 80
  const MapHeight: nat := 45
  const RoomMinSize: int := 6
  const RoomMaxSize: int := 10
  const MaxRooms: nat := 5
  /** Tries of the straight-corridor search before falling back to a Z or L corridor. */
  const RowTries: nat := 50

  /** `rm_starts`: the window each room slot draws its top-left corner from. */
  const RoomStarts: seq<(Loc, Loc)> := [
    (Loc(3, 3), Loc(23, 8)), (Loc(25, 3), Loc(45, 8)), (Loc(55, 3), Loc(75, 8)),
    (Loc(55, 16), Loc(75, 21)), (Loc(25, 16), Loc(45, 21)), (Loc(3, 16), Loc(23, 21))
  ]

  predicate InMap(l: Loc)
  {
    0 <= l.x < MapWidth && 0 <= l.y < MapHeight
  }

  /** Where a drawn room always lies: corner at least 3 from the top-left edges, at least four
      cells across, right and bottom edges inside the map. */
  predicate Fits(r: Room)
  {
    3 <= r.x1 && r.x1 + 4 <= r.x2 < MapWidth && 3 <= r.y1 && r.y1 + 4 <= r.y2 < MapHeight
  }

  predicate FloorAt(m: Level, l: Loc)
  {
    InBounds(m, l) && TileAt(m, l) == FloorTile
  }

  /** The draws one pass of the loop consumes. */
  datatype RoomDraws = RoomDraws(
    skip: bool,                      // random() > .9
    width: nat, height: nat,         // randint(room_min_size, room_max_size)
    x: nat, y: nat,                  // the corner, within the slot's window
    rows: seq<nat>,                  // intr.random() of each straight-corridor try
    door: bool,                      // random() > .5
    lockedAtBirth: bool,             // Door.__init__: random() > .95
    lockedAfter: bool,               // random() > .8
    monsterTickets: seq<nat>,        // one per monster, randint(0, 2) of them
    itemTickets: seq<nat>,           // one per item, randint(0, 2) of them
    cells: seq<(nat, nat)>,          // the spawn cell of each monster, then each item
    space: (nat, nat))               // the cell `place_vertical` draws first

  predicate WellFormed(d: RoomDraws)
  {
    |d.rows| == RowTries && |d.monsterTickets| <= 2 && |d.itemTickets| <= 2
    && |d.cells| == |d.monsterTickets| + |d.itemTickets|
  }

  /** The room slot `r` draws: `env` keeps its right and bottom edges inside the map. */
  function DrawRoom(r: nat, d: RoomDraws): (room: Room)
    requires r < |RoomStarts|
    ensures Fits(room) && room.entries == [] && room.auspicious == 0
    ensures RoomStarts[r].0.x <= room.x1 <= RoomStarts[r].1.x
    ensures RoomStarts[r].0.y <= room.y1 <= RoomStarts[r].1.y
    ensures room.x2 - room.x1 <= RoomMaxSize
    ensures RoomMinSize <= room.y2 - room.y1 <= RoomMaxSize
  {
    var (c1, c2) := RoomStarts[r];
    var x := RandInt(c1.x, c2.x, d.x);
    var y := RandInt(c1.y, c2.y, d.y);
    var w := Env(RandInt(RoomMinSize, RoomMaxSize, d.width), MapWidth - x - 1);
    var h := Env(RandInt(RoomMinSize, RoomMaxSize, d.height), MapHeight - y - 1);
    NewRoom(x, y, w, h)
  }

  // ---------------------------------------------------------------- tunnel cells

  /** `tun_locs`: every cell of every accepted tunnel, in the order they were dug. */
  function TunLocs(ts: seq<seq<Loc>>): (r: seq<Loc>)
    ensures forall c :: c in r <==> exists k | 0 <= k < |ts| :: c in ts[k]
  {
    if ts == [] then []
    else
      var r := TunLocs(ts[..|ts| - 1]) + ts[|ts| - 1];
      assert forall k | 0 <= k < |ts| - 1 :: ts[..|ts| - 1][k] == ts[k];
      r
  }

  /** The first recorded cell next to `c`. */
  function FirstNear(c: Loc, locs: seq<Loc>): (r: Option<Loc>)
    ensures r.None? <==> forall j | 0 <= j < |locs| :: Dist(c, locs[j]) != 1
    ensures r.Some? ==> r.value in locs && Dist(c, r.value) == 1
  {
    if locs == [] then None
    else if Dist(c, locs[0]) == 1 then Some(locs[0])
    else FirstNear(c, locs[1..])
  }

  /** `adj(tun)`: a recorded tunnel cell among the eight neighbours of some cell of `cells`,
      taken from the first such cell. Python picks from a set intersection in hash order; the
      model picks the first cell dug. */
  function AdjHit(cells: seq<Loc>, locs: seq<Loc>): (r: Option<Loc>)
    ensures r.None? <==> forall i, j | 0 <= i < |cells| && 0 <= j < |locs| :: Dist(cells[i], locs[j]) != 1
    ensures r.Some? ==> r.value in locs && exists i | 0 <= i < |cells| :: Dist(cells[i], r.value) == 1
  {
    if cells == [] then None
    else
      match FirstNear(cells[0], locs)
      case Some(t) => Some(t)
      case None =>
        var r := AdjHit(cells[1..], locs);
        assert forall i | 1 <= i < |cells| :: cells[1..][i - 1] == cells[i];
        r
  }

  // ---------------------------------------------------------------- routing

  /** A Z corridor between the centres, else an L one, else none (`continue`), rejecting a shape
      that runs next to an earlier tunnel. */
  function ZOrL(a: Loc, b: Loc, locs: seq<Loc>): (r: Option<seq<Loc>>)
    requires a.x > 0 && b.x > 0
    ensures r.Some? ==> a in r.value && b in r.value && AdjHit(r.value, locs).None?
    ensures r.Some? ==> forall l | l in r.value :: InBox(a, b, l)
    ensures r.None? <==> AdjHit(ZLine(a, b), locs).Some? && AdjHit(LLine(a, b), locs).Some?
  {
    var z := ZLine(a, b);
    if AdjHit(z, locs).None? then Some(z)
    else
      var l := LLine(a, b);
      if AdjHit(l, locs).None? then Some(l) else None
  }

  /** Move the row one step away from the tunnel cell that was hit. */
  function Nudge(y: int, hit: Loc): (r: int)
    ensures hit.y > y ==> r == y - 1
    ensures hit.y < y ==> r == y + 1
    ensures hit.y == y ==> r == y
  {
    if hit.y > y then y - 1 else if hit.y < y then y + 1 else y
  }

  /** The loop `for n in range(50)` of the straight corridor: the row it breaks on, if any.
      A try takes a random row of the overlap; if either end cell touches a tunnel, the row is
      nudged away from the touched cell once and checked again. */
  function TryRows(x1: int, x2: int, intr: Interval, rows: seq<nat>, locs: seq<Loc>): (r: Option<int>)
    requires intr.a <= intr.b
    ensures r.Some? ==> AdjHit([Loc(x1, r.value), Loc(x2, r.value)], locs).None?
    ensures r.Some? ==> intr.a - 1 <= r.value <= intr.b + 1
    ensures locs == [] && |rows| > 0 ==> r == Some(RandInt(intr.a, intr.b, rows[0]))
    decreases |rows|
  {
    if rows == [] then None
    else
      var y := RandInt(intr.a, intr.b, rows[0]);
      match AdjHit([Loc(x1, y), Loc(x2, y)], locs)
      case None => Some(y)
      case Some(hit) =>
        var y' := Nudge(y, hit);
        if AdjHit([Loc(x1, y'), Loc(x2, y')], locs).None? then Some(y')
        else TryRows(x1, x2, intr, rows[1..], locs)
  }

  /** A row strictly inside both rooms. */
  predicate RowLink(r1: Room, r2: Room, y: int)
  {
    r1.y1 < y < r1.y2 && r2.y1 < y < r2.y2
  }

  /** The corridor from the previous room `r1` to the new room `r2`, or none (`continue`).
      Rooms whose inner row ranges overlap get a straight corridor along a row inside both
      between their facing edges, unless 50 tries all touch a tunnel; every other corridor is
      a Z or L shape through both centres. */
  function Route(r1: Room, r2: Room, locs: seq<Loc>, rows: seq<nat>): (r: Option<seq<Loc>>)
    requires Fits(r1) && Fits(r2)
    ensures r.Some? ==> |r.value| > 0 && forall l | l in r.value :: InMap(l)
    ensures r.Some? ==>
      (Center(r1) in r.value && Center(r2) in r.value) ||
      (exists y :: RowLink(r1, r2, y) && r.value == Line(ClosestX(r1, r2).0, ClosestX(r1, r2).1, Row(y)))
    ensures IntersectsInner(IntervalY(r1), IntervalY(r2)).None? ==> r == ZOrL(Center(r1), Center(r2), locs)
  {
    var c1, c2 := Center(r1), Center(r2);
    match IntersectsInner(IntervalY(r1), IntervalY(r2))
    case None => ZOrLInMap(r1, r2, locs); ZOrL(c1, c2, locs)
    case Some(intr) =>
      var (x1, x2) := ClosestX(r1, r2);
      match TryRows(x1, x2, intr, rows, locs)
      case Some(y) =>
        var t := Line(x1, x2, Row(y));
        assert RowLink(r1, r2, y);
        assert forall l | l in t :: InMap(l) by {
          forall l | l in t ensures InMap(l) { assert OnLine(l, Row(y), x1, x2); }
        }
        Some(t)
      case None => ZOrLInMap(r1, r2, locs); ZOrL(c1, c2, locs)
  }

  lemma ZOrLInMap(r1: Room, r2: Room, locs: seq<Loc>)
    requires Fits(r1) && Fits(r2)
    ensures Center(r1).x > 0 && Center(r2).x > 0
    ensures ZOrL(Center(r1), Center(r2), locs).Some? ==>
      forall l | l in ZOrL(Center(r1), Center(r2), locs).value :: InMap(l)
  {
    var c1, c2 := Center(r1), Center(r2);
    assert Contains(r1, c1) && Contains(r2, c2);
    if ZOrL(c1, c2, locs).Some? {
      forall l | l in ZOrL(c1, c2, locs).value ensures InMap(l) {
        assert InBox(c1, c2, l);
      }
    }
  }

  // ---------------------------------------------------------------- digging

  /** `dungeon.tiles[x, y] = t` for each cell in turn. */
  function CarveAll(m: Level, cells: seq<Loc>, t: Tile): (r: Level)
    requires forall i | 0 <= i < |cells| :: InBounds(m, cells[i])
    ensures Width(r) == Width(m) && Height(r) == Height(m)
    ensures r == m.(tiles := r.tiles)
    ensures forall p | InBounds(m, p) :: TileAt(r, p) == if p in cells then t else TileAt(m, p)
    decreases |cells|
  {
    if cells == [] then m
    else
      var r := CarveAll(SetTile(m, cells[0], t), cells[1..], t);
      assert forall p :: p in cells <==> p == cells[0] || p in cells[1..];
      r
  }

  /** Cells on one of the four lines through the previous room's edges, where a door may go. */
  predicate OnEdgeLine(r1: Room, l: Loc)
  {
    l.x == r1.x1 || l.x == r1.x2 || l.y == r1.y1 || l.y == r1.y2
  }

  /** The first tunnel cell on an edge line of `r1`: where the door goes. */
  function DoorCell(tun: seq<Loc>, r1: Room): (r: Option<Loc>)
    ensures r.Some? ==> r.value in tun && OnEdgeLine(r1, r.value)
    ensures r.None? <==> forall i | 0 <= i < |tun| :: !OnEdgeLine(r1, tun[i])
  {
    if tun == [] then None
    else if OnEdgeLine(r1, tun[0]) then Some(tun[0])
    else DoorCell(tun[1..], r1)
  }

  /** The tunnel cells, in order, that are walls of `r1`, and those that are walls of `r2` but
      not of `r1`: the entries each room records. */
  function Entries(tun: seq<Loc>, w1: set<Loc>, w2: set<Loc>): (r: (seq<Loc>, seq<Loc>))
    ensures forall l | l in r.0 :: l in tun && l in w1
    ensures forall l | l in r.1 :: l in tun && l in w2 && l !in w1
    ensures forall l | l in tun :: (l in w1 ==> l in r.0) && (l in w2 && l !in w1 ==> l in r.1)
  {
    if tun == [] then ([], [])
    else
      var rest := Entries(tun[1..], w1, w2);
      var l := tun[0];
      assert forall p | p in tun[1..] :: p in tun;
      if l in w1 then ([l] + rest.0, rest.1)
      else if l in w2 then (rest.0, [l] + rest.1)
      else rest
  }

  // ---------------------------------------------------------------- the state

  datatype DoorSpot = DoorSpot(loc: Loc, locked: bool)

  /** What the loop has built: the map, the rooms, the accepted tunnels, the player, and the
      entities it added (doors, spawned monsters and items, underground spaces). */
  datatype Gen = Gen(level: Level, rooms: seq<Room>, tunnels: seq<seq<Loc>>, player: Loc,
                     doors: seq<DoorSpot>, spawns: seq<Spawn>, spaces: seq<Loc>)

  /** The locations of every entity on the map. */
  function Occupied(g: Gen): (r: seq<Loc>)
    ensures g.player in r
    ensures forall i | 0 <= i < |g.doors| :: g.doors[i].loc in r
    ensures forall i | 0 <= i < |g.spawns| :: g.spawns[i].loc in r
    ensures forall i | 0 <= i < |g.spaces| :: g.spaces[i] in r
    ensures forall l | l in r ::
      || l == g.player
      || l in g.spaces
      || (exists i | 0 <= i < |g.doors| :: g.doors[i].loc == l)
      || (exists i | 0 <= i < |g.spawns| :: g.spawns[i].loc == l)
  {
    var ds := seq(|g.doors|, i requires 0 <= i < |g.doors| => g.doors[i].loc);
    var ss := seq(|g.spawns|, i requires 0 <= i < |g.spawns| => g.spawns[i].loc);
    assert forall i | 0 <= i < |g.doors| :: ds[i] == g.doors[i].loc;
    assert forall i | 0 <= i < |g.spawns| :: ss[i] == g.spawns[i].loc;
    [g.player] + ds + ss + g.spaces
  }

  predicate Disjoint(a: seq<Loc>, b: seq<Loc>)
  {
    forall c | c in a :: c !in b
  }

  /** What every pass of the loop keeps: rooms fit the map and never intersect one another,
      tunnels never share a cell, tunnel cells and room interiors are floor, recorded entries are
      walls of their room, doors stand on tunnel cells, and each room after the first is joined
      to the one before by its own tunnel. */
  ghost predicate LoopInv(g: Gen)
  {
    && Width(g.level) == MapWidth && Height(g.level) == MapHeight
    && RoomsFit(g.rooms)
    && RoomsApart(g.rooms)
    && TunnelsApart(g.tunnels)
    && TunnelsFloor(g.level, g.tunnels)
    && RoomsFloor(g.level, g.rooms)
    && EntriesOnWalls(g.rooms)
    && DoorsOnTunnels(g.doors, g.tunnels)
    && Chained(g.rooms, g.tunnels)
  }

  predicate RoomsFit(rs: seq<Room>)
  {
    forall k | 0 <= k < |rs| :: Fits(rs[k])
  }

  predicate RoomsApart(rs: seq<Room>)
  {
    forall i, j | 0 <= i < j < |rs| :: !Intersects(rs[i], rs[j])
  }

  predicate TunnelsApart(ts: seq<seq<Loc>>)
  {
    forall i, j | 0 <= i < j < |ts| :: Disjoint(ts[i], ts[j])
  }

  predicate TunnelsFloor(m: Level, ts: seq<seq<Loc>>)
  {
    forall k, l | 0 <= k < |ts| && l in ts[k] :: FloorAt(m, l)
  }

  ghost predicate RoomsFloor(m: Level, rs: seq<Room>)
  {
    forall k, l | 0 <= k < |rs| && InInner(rs[k], l) :: FloorAt(m, l)
  }

  predicate EntriesOnWalls(rs: seq<Room>)
  {
    forall k, l | 0 <= k < |rs| && l in rs[k].entries :: l in Walls(rs[k])
  }

  predicate DoorsOnTunnels(ds: seq<DoorSpot>, ts: seq<seq<Loc>>)
  {
    forall i | 0 <= i < |ds| :: ds[i].loc in TunLocs(ts)
  }

  ghost predicate Chained(rs: seq<Room>, ts: seq<seq<Loc>>)
  {
    && |ts| == (if rs == [] then 0 else |rs| - 1)
    && (forall k | 0 <= k < |ts| :: Links(rs[k], rs[k + 1], ts[k]))
  }

  /** Every floor cell stays floor. */
  ghost predicate FloorKept(m: Level, m': Level)
  {
    forall l | FloorAt(m, l) :: FloorAt(m', l)
  }

  /** Two room lists with the same corners, room by room. */
  predicate SameRects(a: seq<Room>, b: seq<Room>)
  {
    |a| == |b| && forall k | 0 <= k < |a| :: SameRect(a[k], b[k])
  }

  lemma SameRectsKeepShape(a: seq<Room>, b: seq<Room>, m: Level, m': Level)
    requires SameRects(a, b) && FloorKept(m, m')
    ensures RoomsFit(a) ==> RoomsFit(b)
    ensures RoomsApart(a) ==> RoomsApart(b)
    ensures RoomsFloor(m, a) ==> RoomsFloor(m', b)
  {
    if RoomsApart(a) {
      forall i, j | 0 <= i < j < |b| ensures !Intersects(b[i], b[j]) {
        IntersectsIgnoresState(a[i], a[j], b[i]);
        IntersectsIgnoresState(a[j], b[i], b[j]);
      }
    }
    if RoomsFloor(m, a) {
      forall k, l | 0 <= k < |b| && InInner(b[k], l) ensures FloorAt(m', l) {
        assert InInner(a[k], l);
      }
    }
  }

  lemma SameRectsKeepChain(a: seq<Room>, b: seq<Room>, ts: seq<seq<Loc>>)
    requires SameRects(a, b) && Chained(a, ts)
    ensures Chained(b, ts)
  {
    forall k | 0 <= k < |ts| ensures Links(b[k], b[k + 1], ts[k]) {
      LinksIgnoreState(a[k], a[k + 1], b[k], b[k + 1], ts[k]);
    }
  }

  /** Tunnel `t` joins `r1` to `r2`: through both centres, or straight along a row inside both. */
  ghost predicate Links(r1: Room, r2: Room, t: seq<Loc>)
  {
    (Center(r1) in t && Center(r2) in t) ||
    (exists y :: RowLink(r1, r2, y) && t == Line(ClosestX(r1, r2).0, ClosestX(r1, r2).1, Row(y)))
  }

  /** Two rooms with the same corners. */
  predicate SameRect(a: Room, b: Room)
  {
    a.x1 == b.x1 && a.y1 == b.y1 && a.x2 == b.x2 && a.y2 == b.y2
  }

  lemma LinksIgnoreState(r1: Room, r2: Room, s1: Room, s2: Room, t: seq<Loc>)
    requires SameRect(r1, s1) && SameRect(r2, s2)
    ensures Links(r1, r2, t) <==> Links(s1, s2, t)
  {
    assert Center(r1) == Center(s1) && Center(r2) == Center(s2);
    assert ClosestX(r1, r2) == ClosestX(s1, s2);
    assert forall y :: RowLink(r1, r2, y) <==> RowLink(s1, s2, y);
  }

  // ---------------------------------------------------------------- one pass of the loop

  /** Dig an accepted tunnel from the last room to `room`: an optional door on the first cell
      on an edge line of the last room, every cell carved to floor and recorded, and the cells
      on either room's walls recorded as that room's entries. */
  function Dig(g: Gen, room: Room, tun: seq<Loc>, d: RoomDraws): (r: (Gen, Room))
    requires LoopInv(g) && |g.rooms| > 0 && Fits(room) && room.entries == []
    requires forall l | l in tun :: InMap(l)
    requires Disjoint(tun, TunLocs(g.tunnels))
    requires Links(g.rooms[|g.rooms| - 1], room, tun)
    ensures SameRect(r.1, room) && r.1.auspicious == room.auspicious
    ensures forall l | l in r.1.entries :: l in tun && l in Walls(room)
    ensures r.0.tunnels == g.tunnels + [tun] && r.0.player == g.player
    ensures r.0.spawns == g.spawns && r.0.spaces == g.spaces
    ensures |r.0.rooms| == |g.rooms| && forall k | 0 <= k < |g.rooms| :: SameRect(r.0.rooms[k], g.rooms[k])
    ensures |g.doors| <= |r.0.doors| <= |g.doors| + 1
    ensures r.0.level == g.level.(tiles := r.0.level.tiles)
    ensures Width(r.0.level) == MapWidth && Height(r.0.level) == MapHeight
    ensures forall l | InBounds(g.level, l) :: TileAt(r.0.level, l) == if l in tun then FloorTile else TileAt(g.level, l)
    ensures forall l | l in tun :: FloorAt(r.0.level, l)
  {
    var n := |g.rooms| - 1;
    var r1 := g.rooms[n];
    var doors := if !d.door then g.doors else
      match DoorCell(tun, r1)
      case None => g.doors
      case Some(c) => g.doors + [DoorSpot(c, d.lockedAtBirth || d.lockedAfter)];
    assert forall i | 0 <= i < |tun| :: InBounds(g.level, tun[i]) by {
      forall i | 0 <= i < |tun| ensures InBounds(g.level, tun[i]) { assert tun[i] in tun && InMap(tun[i]); }
    }
    var level := CarveAll(g.level, tun, FloorTile);
    var (e1, e2) := Entries(tun, Walls(r1), Walls(room));
    var r1' := r1.(entries := r1.entries + e1);
    (g.(level := level, rooms := g.rooms[..n] + [r1'], tunnels := g.tunnels + [tun], doors := doors),
     room.(entries := e2))
  }

  lemma DigKeeps(g: Gen, room: Room, tun: seq<Loc>, d: RoomDraws)
    requires LoopInv(g) && |g.rooms| > 0 && Fits(room) && room.entries == []
    requires forall l | l in tun :: InMap(l)
    requires Disjoint(tun, TunLocs(g.tunnels))
    requires Links(g.rooms[|g.rooms| - 1], room, tun)
    ensures var (g', room') := Dig(g, room, tun, d);
      && FloorKept(g.level, g'.level)
      && RoomsFit(g'.rooms) && RoomsApart(g'.rooms) && RoomsFloor(g'.level, g'.rooms)
      && TunnelsApart(g'.tunnels) && TunnelsFloor(g'.level, g'.tunnels)
      && EntriesOnWalls(g'.rooms) && DoorsOnTunnels(g'.doors, g'.tunnels)
      && Chained(g'.rooms + [room'], g'.tunnels)
  {
    var (g', room') := Dig(g, room, tun, d);
    var n := |g.rooms| - 1;
    assert FloorKept(g.level, g'.level);
    SameRectsKeepShape(g.rooms, g'.rooms, g.level, g'.level);
    assert TunnelsApart(g'.tunnels) by {
      forall i, j | 0 <= i < j < |g'.tunnels| ensures Disjoint(g'.tunnels[i], g'.tunnels[j]) {
        if j == |g.tunnels| {
          forall c | c in g.tunnels[i] ensures c !in tun { assert c in TunLocs(g.tunnels); }
        }
      }
    }
    assert EntriesOnWalls(g'.rooms) by {
      forall k, l | 0 <= k < |g'.rooms| && l in g'.rooms[k].entries ensures l in Walls(g'.rooms[k]) {
        assert Walls(g'.rooms[k]) == Walls(g.rooms[k]);
      }
    }
    assert DoorsOnTunnels(g'.doors, g'.tunnels) by {
      forall i | 0 <= i < |g'.doors| ensures g'.doors[i].loc in TunLocs(g'.tunnels) {
        if i < |g.doors| {
          var k :| 0 <= k < |g.tunnels| && g.doors[i].loc in g.tunnels[k];
          assert g'.tunnels[k] == g.tunnels[k];
        } else {
          assert g'.doors[i].loc in g'.tunnels[|g.tunnels|];
        }
      }
    }
    var rs, rs' := g.rooms + [room], g'.rooms + [room'];
    assert SameRects(rs, rs');
    assert Chained(rs, g'.tunnels) by {
      forall k | 0 <= k < |g'.tunnels| ensures Links(rs[k], rs[k + 1], g'.tunnels[k]) {
        if k < |g.tunnels| {
          assert rs[k] == g.rooms[k] && rs[k + 1] == g.rooms[k + 1];
        }
      }
    }
    SameRectsKeepChain(rs, rs', g'.tunnels);
  }

  /** A room the loop is about to append: everything `LoopInv` asks of the state with the room
      added, apart from its interior being floor yet. */
  ghost predicate ReadyFor(g: Gen, room: Room)
  {
    && Width(g.level) == MapWidth && Height(g.level) == MapHeight
    && RoomsFit(g.rooms + [room])
    && RoomsApart(g.rooms + [room])
    && TunnelsApart(g.tunnels)
    && TunnelsFloor(g.level, g.tunnels)
    && RoomsFloor(g.level, g.rooms)
    && EntriesOnWalls(g.rooms + [room])
    && DoorsOnTunnels(g.doors, g.tunnels)
    && Chained(g.rooms + [room], g.tunnels)
  }

  /** The spawn cells a list of draws stands for, in the room's spawn window. */
  function SpawnCells(room: Room, cells: seq<(nat, nat)>): (r: seq<Loc>)
    requires Fits(room)
    ensures |r| == |cells| && forall i | 0 <= i < |r| :: SpawnCell(room, r[i])
  {
    seq(|cells|, i requires 0 <= i < |cells| =>
      Loc(RandInt(room.x1 + 1, room.x2 - 1, cells[i].0), RandInt(room.y1 + 1, room.y2 - 1, cells[i].1)))
  }

  /** The kinds `place_entities` draws on a floor: the monsters, then the items. */
  function Drawn(floor: int, d: RoomDraws): (r: seq<Kind>)
    requires floor >= 0
    ensures |r| == |d.monsterTickets| + |d.itemTickets|
    ensures forall i | 0 <= i < |r| ::
      r[i] in Named(Reached(EnemyChances, floor)) || r[i] in Named(Reached(ItemChances, floor))
  {
    EnemyTableNeverFails(floor, d.monsterTickets);
    ItemTableNeverFails(floor, d.itemTickets);
    DrawnFrom(EnemyChances, ItemChances, floor, d.monsterTickets, d.itemTickets)
  }

  function DrawnFrom(mt: seq<Tier>, it: seq<Tier>, floor: int, ms: seq<nat>, its: seq<nat>): (r: seq<Kind>)
    requires NonNegative(Eligible(mt, floor)) && GetEntitiesAtRandom(mt, floor, ms).Ok?
    requires NonNegative(Eligible(it, floor)) && GetEntitiesAtRandom(it, floor, its).Ok?
    ensures |r| == |ms| + |its|
    ensures forall i | 0 <= i < |r| :: r[i] in Named(Reached(mt, floor)) || r[i] in Named(Reached(it, floor))
  {
    var a := GetEntitiesAtRandom(mt, floor, ms).value;
    var b := GetEntitiesAtRandom(it, floor, its).value;
    ConcatFrom(a, b, Named(Reached(mt, floor)), Named(Reached(it, floor)));
    a + b
  }

  lemma ConcatFrom(a: seq<Kind>, b: seq<Kind>, sa: seq<Kind>, sb: seq<Kind>)
    requires forall i | 0 <= i < |a| :: a[i] in sa
    requires forall i | 0 <= i < |b| :: b[i] in sb
    ensures forall i | 0 <= i < |a + b| :: (a + b)[i] in sa || (a + b)[i] in sb
  {
    forall i | 0 <= i < |a + b| ensures (a + b)[i] in sa || (a + b)[i] in sb {
      if i < |a| { assert (a + b)[i] == a[i]; } else { assert (a + b)[i] == b[i - |a|]; }
    }
  }
  /** Finish a room: carve its interior to floor, run `place_entities` (spawns only on free
      cells), put the underground space `place_vertical` spawns at its first draw (the stairs it
      checks against do not exist yet), and append the room. */
  function Furnish(g: Gen, room: Room, d: RoomDraws, floor: int): (g': Gen)
    requires ReadyFor(g, room) && Fits(room) && WellFormed(d) && floor >= 0
    ensures LoopInv(g')
    ensures g'.rooms == g.rooms + [room] && g'.tunnels == g.tunnels && g'.player == g.player
    ensures g'.doors == g.doors && |g'.spaces| == |g.spaces| + 1
    ensures g'.spawns == g.spawns + PlaceEntities(Occupied(g), Drawn(floor, d), SpawnCells(room, d.cells))
    ensures FloorKept(g.level, g'.level)
    ensures Appended(g, room, g')
  {
    var level := CarveInner(g.level, room);
    var spawned := PlaceEntities(Occupied(g), Drawn(floor, d), SpawnCells(room, d.cells));
    SpawnsInsideRoom(room, Occupied(g), Drawn(floor, d), SpawnCells(room, d.cells));
    var space := Loc(RandInt(room.x1 + 1, room.x2 - 1, d.space.0), RandInt(room.y1 + 1, room.y2 - 1, d.space.1));
    var g' := g.(level := level, rooms := g.rooms + [room], spawns := g.spawns + spawned, spaces := g.spaces + [space]);
    FurnishKeepsInv(g, room, g');
    assert g'.(spawns := g.spawns, spaces := g.spaces).player == g.player;
    OccupiedByEntities(g'.(spawns := g.spawns, spaces := g.spaces), g);
    assert g'.rooms[..|g.rooms|] == g.rooms;
    g'
  }

  lemma OccupiedByEntities(a: Gen, b: Gen)
    requires a.player == b.player && a.doors == b.doors && a.spawns == b.spawns && a.spaces == b.spaces
    ensures Occupied(a) == Occupied(b)
  {
  }

  /** `dungeon.tiles[room.inner] = floor`. */
  function CarveInner(m: Level, room: Room): (r: Level)
    requires Fits(room) && Width(m) == MapWidth && Height(m) == MapHeight
    ensures Width(r) == MapWidth && Height(r) == MapHeight
    ensures r == m.(tiles := r.tiles)
    ensures forall p | InBounds(m, p) :: TileAt(r, p) == if InInner(room, p) then FloorTile else TileAt(m, p)
  {
    var inner := GridCells(room.y1 + 1, room.y2, room.x1 + 1, room.x2);
    assert forall i | 0 <= i < |inner| :: InBounds(m, inner[i]) by {
      forall i | 0 <= i < |inner| ensures InBounds(m, inner[i]) { assert inner[i] in inner; }
    }
    CarveAll(m, inner, FloorTile)
  }

  lemma FurnishKeepsInv(g: Gen, room: Room, g': Gen)
    requires ReadyFor(g, room) && Fits(room)
    requires g'.rooms == g.rooms + [room] && g'.tunnels == g.tunnels && g'.doors == g.doors
    requires Width(g'.level) == Width(g.level) && Height(g'.level) == Height(g.level)
    requires forall p | InBounds(g.level, p) :: TileAt(g'.level, p) == if InInner(room, p) then FloorTile else TileAt(g.level, p)
    ensures LoopInv(g') && FloorKept(g.level, g'.level)
  {
    assert FloorKept(g.level, g'.level);
    assert RoomsFloor(g'.level, g'.rooms) by {
      forall k, l | 0 <= k < |g'.rooms| && InInner(g'.rooms[k], l) ensures FloorAt(g'.level, l) {
        if k == |g.rooms| {
          assert InBounds(g.level, l);
        } else {
          assert InInner(g.rooms[k], l);
          assert FloorAt(g.level, l);
        }
      }
    }
  }

  /** A room that meets none of the earlier rooms keeps the list pairwise apart. */
  lemma AppendApart(rs: seq<Room>, room: Room, rs': seq<Room>, room': Room)
    requires RoomsApart(rs') && SameRects(rs, rs') && SameRect(room, room')
    requires forall k | 0 <= k < |rs| :: !Intersects(room, rs[k])
    ensures RoomsApart(rs' + [room'])
  {
    var all := rs' + [room'];
    forall i, j | 0 <= i < j < |all| ensures !Intersects(all[i], all[j]) {
      if j == |rs'| {
        IntersectsSymmetric(room, rs[i]);
        IntersectsIgnoresState(rs[i], room, rs'[i]);
        IntersectsIgnoresState(room, rs'[i], room');
      } else {
        assert all[i] == rs'[i] && all[j] == rs'[j];
      }
    }
  }

  /** What a pass that appends `room` promises about the state it returns. */
  ghost predicate Appended(g: Gen, room: Room, g': Gen)
  {
    && LoopInv(g')
    && |g'.rooms| == |g.rooms| + 1
    && SameRect(g'.rooms[|g.rooms|], room) && SameRects(g'.rooms[..|g.rooms|], g.rooms)
    && FloorKept(g.level, g'.level)
    && g'.level == g.level.(tiles := g'.level.tiles)
    && g.spawns <= g'.spawns
    && (forall i | |g.spawns| <= i < |g'.spawns| ::
      && g'.spawns[i].loc !in Occupied(g'.(spawns := g.spawns, spaces := g.spaces))
      && SpawnCell(room, g'.spawns[i].loc))
  }

  /** The first room: no corridor; on floor 0 the player moves to its centre. */
  function FirstRoom(g: Gen, room: Room, d: RoomDraws, floor: int): (g': Gen)
    requires LoopInv(g) && g.rooms == [] && Fits(room) && room.entries == [] && WellFormed(d) && floor >= 0
    ensures Appended(g, room, g')
    ensures g'.player == if floor == 0 then Center(room) else g.player
  {
    var g0 := g.(player := if floor == 0 then Center(room) else g.player);
    assert ReadyFor(g0, room);
    Furnish(g0, room, d, floor)
  }

  /** A later room joined to the previous one by the accepted tunnel `tun`. */
  function NextRoom(g: Gen, room: Room, tun: seq<Loc>, d: RoomDraws, floor: int): (g': Gen)
    requires LoopInv(g) && |g.rooms| > 0 && Fits(room) && room.entries == [] && WellFormed(d) && floor >= 0
    requires forall k | 0 <= k < |g.rooms| :: !Intersects(room, g.rooms[k])
    requires forall l | l in tun :: InMap(l)
    requires Disjoint(tun, TunLocs(g.tunnels))
    requires Links(g.rooms[|g.rooms| - 1], room, tun)
    ensures Appended(g, room, g')
    ensures g'.player == g.player && g'.tunnels == g.tunnels + [tun]
  {
    var (g1, room') := Dig(g, room, tun, d);
    DigReady(g, room, tun, d);
    var g' := Furnish(g1, room', d, floor);
    AppendedAfterDig(g, g1, room, room', g');
    g'
  }

  lemma DigReady(g: Gen, room: Room, tun: seq<Loc>, d: RoomDraws)
    requires LoopInv(g) && |g.rooms| > 0 && Fits(room) && room.entries == []
    requires forall k | 0 <= k < |g.rooms| :: !Intersects(room, g.rooms[k])
    requires forall l | l in tun :: InMap(l)
    requires Disjoint(tun, TunLocs(g.tunnels))
    requires Links(g.rooms[|g.rooms| - 1], room, tun)
    ensures var (g1, room') := Dig(g, room, tun, d);
      ReadyFor(g1, room') && Fits(room') && SameRect(room, room') && SameRects(g1.rooms, g.rooms)
      && FloorKept(g.level, g1.level) && g1.spawns == g.spawns && g1.spaces == g.spaces && g1.player == g.player
      && g1.level == g.level.(tiles := g1.level.tiles)
      && g1.tunnels == g.tunnels + [tun]
  {
    var (g1, room') := Dig(g, room, tun, d);
    DigKeeps(g, room, tun, d);
    AppendApart(g.rooms, room, g1.rooms, room');
    assert Walls(room') == Walls(room);
    assert EntriesOnWalls(g1.rooms + [room']) by {
      forall k, l | 0 <= k < |g1.rooms| + 1 && l in (g1.rooms + [room'])[k].entries
        ensures l in Walls((g1.rooms + [room'])[k]) {
        if k < |g1.rooms| { assert (g1.rooms + [room'])[k] == g1.rooms[k]; }
      }
    }
    assert RoomsFit(g1.rooms + [room']);
  }

  lemma AppendedAfterDig(g: Gen, g1: Gen, room: Room, room': Room, g': Gen)
    requires Appended(g1, room', g') && SameRect(room, room') && SameRects(g1.rooms, g.rooms)
    requires FloorKept(g.level, g1.level) && g1.spawns == g.spawns && g1.spaces == g.spaces
    requires g1.level == g.level.(tiles := g1.level.tiles)
    ensures Appended(g, room, g')
  {
    assert g'.rooms[..|g.rooms|] == g'.rooms[..|g1.rooms|];
    forall i | |g.spawns| <= i < |g'.spawns| ensures SpawnCell(room, g'.spawns[i].loc) {
      assert SpawnCell(room', g'.spawns[i].loc);
    }
  }

  /** One pass of the loop for slot `r` (`for r in range(max_rooms)`). A skipped slot or a room
      meeting an earlier one changes nothing; so does a room whose corridor cannot be routed or
      would share a cell with an earlier tunnel. Otherwise the room is appended, joined to the
      previous room by a fresh tunnel, and furnished. */
  function Step(g: Gen, r: nat, d: RoomDraws, floor: int): (g': Gen)
    requires LoopInv(g) && r < MaxRooms && WellFormed(d) && floor >= 0
    ensures LoopInv(g')
    ensures d.skip ==> g' == g
    ensures (exists k | 0 <= k < |g.rooms| :: Intersects(DrawRoom(r, d), g.rooms[k])) ==> g' == g
    ensures g' == g || Appended(g, DrawRoom(r, d), g')
    ensures g.rooms == [] && !d.skip ==>
      Appended(g, DrawRoom(r, d), g') && g'.player == (if floor == 0 then Center(DrawRoom(r, d)) else g.player)
    ensures g.rooms != [] ==> g'.player == g.player
  {
    if d.skip then g
    else
      var room := DrawRoom(r, d);
      if exists k | 0 <= k < |g.rooms| :: Intersects(room, g.rooms[k]) then g
      else if g.rooms == [] then FirstRoom(g, room, d, floor)
      else
        match Route(g.rooms[|g.rooms| - 1], room, TunLocs(g.tunnels), d.rows)
        case None => g
        case Some(tun) =>
          if exists c | c in tun :: c in TunLocs(g.tunnels) then g
          else NextRoom(g, room, tun, d, floor)
  }

  /** `g'` extends `g`: earlier rooms keep their corners, floor stays floor, the map keeps its
      depth and the spawn list only grows. */
  ghost predicate Grows(g: Gen, g': Gen)
  {
    && |g.rooms| <= |g'.rooms|
    && SameRects(g'.rooms[..|g.rooms|], g.rooms)
    && FloorKept(g.level, g'.level)
    && g'.level == g.level.(tiles := g'.level.tiles)
    && g.spawns <= g'.spawns
  }

  lemma GrowsReflexive(g: Gen)
    ensures Grows(g, g)
  {
    assert g.rooms[..|g.rooms|] == g.rooms;
  }

  lemma AppendedGrows(g: Gen, room: Room, g': Gen)
    requires Appended(g, room, g')
    ensures Grows(g, g')
  {
  }

  lemma GrowsTransitive(a: Gen, b: Gen, c: Gen)
    requires Grows(a, b) && Grows(b, c)
    ensures Grows(a, c)
  {
    assert c.rooms[..|a.rooms|] == c.rooms[..|b.rooms|][..|a.rooms|];
    assert b.rooms[..|a.rooms|] == b.rooms[..|b.rooms|][..|a.rooms|];
    forall k | 0 <= k < |a.rooms| ensures SameRect(c.rooms[k], a.rooms[k]) {
      assert SameRect(c.rooms[k], b.rooms[k]);
    }
  }

  /** The passes for slots `r`, `r + 1`, ... of the loop. Placed rooms keep their corners,
      floor stays floor, and once the first room is placed the player stays where it is. */
  function Passes(g: Gen, draws: seq<RoomDraws>, r: nat, floor: int): (g': Gen)
    requires LoopInv(g) && r + |draws| <= MaxRooms && floor >= 0
    requires forall i | 0 <= i < |draws| :: WellFormed(draws[i])
    ensures LoopInv(g') && Grows(g, g')
    ensures |g'.rooms| <= |g.rooms| + |draws|
    ensures g.rooms != [] || floor != 0 ==> g'.player == g.player
    ensures floor == 0 && g.rooms == [] && g'.rooms != [] ==> g'.player == Center(g'.rooms[0])
    decreases |draws|
  {
    if draws == [] then
      GrowsReflexive(g);
      g
    else
      var g1 := Step(g, r, draws[0], floor);
      assert forall i | 0 <= i < |draws[1..]| :: draws[1..][i] == draws[i + 1];
      var g' := Passes(g1, draws[1..], r + 1, floor);
      PassesCompose(g, g1, g', DrawRoom(r, draws[0]), floor);
      g'
  }

  lemma PassesCompose(g: Gen, g1: Gen, g': Gen, room: Room, floor: int)
    requires g1 == g || Appended(g, room, g1)
    requires g.rooms == [] && g1 != g ==> g1.player == (if floor == 0 then Center(room) else g.player)
    requires g.rooms != [] ==> g1.player == g.player
    requires Grows(g1, g')
    requires g1.rooms != [] || floor != 0 ==> g'.player == g1.player
    requires floor == 0 && g1.rooms == [] && g'.rooms != [] ==> g'.player == Center(g'.rooms[0])
    ensures Grows(g, g')
    ensures g.rooms != [] || floor != 0 ==> g'.player == g.player
    ensures floor == 0 && g.rooms == [] && g'.rooms != [] ==> g'.player == Center(g'.rooms[0])
  {
    if g1 == g {
    } else {
      AppendedGrows(g, room, g1);
      GrowsTransitive(g, g1, g');
      if g.rooms == [] {
        assert SameRect(g1.rooms[0], room);
        assert g'.rooms[..|g1.rooms|][0] == g'.rooms[0];
        assert SameRect(g'.rooms[0], g1.rooms[0]);
        assert Center(g'.rooms[0]) == Center(room);
      }
    }
  }

  /** The room-and-tunnel loop of `generate_dungeon` on a fresh all-wall map one level below
      `floor`, with five passes. */
  function Generate(player: Loc, floor: int, draws: seq<RoomDraws>): (g: Gen)
    requires floor >= 0 && |draws| == MaxRooms
    requires forall i | 0 <= i < |draws| :: WellFormed(draws[i])
    ensures LoopInv(g)
    ensures |g.rooms| <= MaxRooms && g.level.depth == floor + 1
    ensures g.level.up.None? && g.level.left.None? && g.level.right.None?
    ensures floor == 0 && g.rooms != [] ==> g.player == Center(g.rooms[0])
    ensures floor != 0 ==> g.player == player
  {
    var g0 := Gen(NewLevel(MapWidth, MapHeight, [], floor + 1), [], [], player, [], [], []);
    Passes(g0, draws, 0, floor)
  }
}
