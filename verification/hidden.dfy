/** `hidden_room` and `hidden_room_tunnel` (procgen.py): a 3 by 3 room set apart from every
    other room, reached through a tunnel whose last cell is a hidden passage. */
module HiddenRooms {
  import opened Common
  import opened Grid
  import opened Rooms
  import opened Tiles
  import opened GameMap
  import opened Generator

  const HiddenTries: nat := 50

  /** The room a candidate draw names: `RectangularRoom(x, y, 3, 3)` with
      `x = randint(3, width - 3)` and `y = randint(3, height - 3)`. */
  function Candidate(m: Level, d: (nat, nat)): (r: Room)
    requires Width(m) >= 6 && Height(m) >= 6
    ensures Small(m, r)
  {
    NewRoom(RandInt(3, Width(m) - 3, d.0), RandInt(3, Height(m) - 3, d.1), 3, 3)
  }

  /** The shape every candidate has. */
  predicate Small(m: Level, r: Room)
  {
    && 3 <= r.x1 <= Width(m) - 3 && 3 <= r.y1 <= Height(m) - 3
    && r.x2 == r.x1 + 3 && r.y2 == r.y1 + 3
  }

  /** The four searches of `hidden_room_tunnel`, in the order it makes them: up from the top
      wall, left from the left wall, right from the right wall, down from the bottom wall. */
  function Probes(r: Room): (p: seq<(Loc, Loc)>)
    ensures |p| == 4
  {
    [(Mod(P1(r), 1, 0), Loc(0, -1)), (Mod(P1(r), 0, 1), Loc(-1, 0)),
     (Mod(P2(r), 0, -1), Loc(1, 0)), (Mod(P2(r), -1, 0), Loc(0, 1))]
  }

  /** A tunnel `hidden_room_tunnel` found: which search found it and the cells it returned. */
  datatype Tunnel = Tunnel(probe: nat, cells: seq<Loc>)

  /** `hidden_room_tunnel`: the run found by the first search that finds one. */
  function HiddenRoomTunnel(m: Level, r: Room): (t: Option<Tunnel>)
    ensures t.Some? ==>
      && t.value.probe < 4
      && FindWalkable(m, Probes(r)[t.value.probe].0, Probes(r)[t.value.probe].1) == Some(t.value.cells)
      && forall k | 0 <= k < t.value.probe :: FindWalkable(m, Probes(r)[k].0, Probes(r)[k].1).None?
    ensures t.None? <==> forall k | 0 <= k < 4 :: FindWalkable(m, Probes(r)[k].0, Probes(r)[k].1).None?
  {
    FirstFound(m, Probes(r), 0)
  }

  function FirstFound(m: Level, probes: seq<(Loc, Loc)>, k: nat): (t: Option<Tunnel>)
    requires k <= |probes|
    ensures t.Some? ==>
      && k <= t.value.probe < |probes|
      && FindWalkable(m, probes[t.value.probe].0, probes[t.value.probe].1) == Some(t.value.cells)
      && forall j | k <= j < t.value.probe :: FindWalkable(m, probes[j].0, probes[j].1).None?
    ensures t.None? <==> forall j | k <= j < |probes| :: FindWalkable(m, probes[j].0, probes[j].1).None?
    decreases |probes| - k
  {
    if k == |probes| then None
    else
      match FindWalkable(m, probes[k].0, probes[k].1)
      case Some(cells) => Some(Tunnel(k, cells))
      case None => FirstFound(m, probes, k + 1)
  }

  /** The cells of a run along one of the four unit directions lie on a straight line: the
      `i`-th is `i` steps from the first. */
  lemma {:induction false} RunIsStraight(l: seq<Loc>, dir: Loc, i: nat)
    requires Consecutive(l, dir) && i < |l|
    ensures dir == Loc(0, -1) ==> l[i] == Loc(l[0].x, l[0].y - i)
    ensures dir == Loc(-1, 0) ==> l[i] == Loc(l[0].x - i, l[0].y)
    ensures dir == Loc(1, 0) ==> l[i] == Loc(l[0].x + i, l[0].y)
    ensures dir == Loc(0, 1) ==> l[i] == Loc(l[0].x, l[0].y + i)
  {
    if i > 0 {
      RunIsStraight(l, dir, i - 1);
      assert l[i] == Add(l[i - 1], dir);
    }
  }

  /** The facts about a tunnel that carving relies on. */
  predicate TunnelOk(m: Level, r: Room, cells: seq<Loc>)
  {
    && |cells| >= 1
    && (forall i | 0 <= i < |cells| :: InBounds(m, cells[i]) && !InInner(r, cells[i]))
    && (forall i | 0 <= i < |cells| - 1 :: cells[i] != cells[|cells| - 1])
  }

  /** A tunnel found from a candidate room stays on the map, walks away from the room (it never
      enters the room's inner cells) and never comes back to its own last cell. */
  lemma TunnelShape(m: Level, r: Room, k: nat, cells: seq<Loc>)
    requires Small(m, r) && k < 4
    requires WalkFound(m, Probes(r)[k].0, Probes(r)[k].1, cells)
    ensures TunnelOk(m, r, cells)
  {
    var start, dir := Probes(r)[k].0, Probes(r)[k].1;
    assert InBounds(m, Add(start, dir)) by {
      if |cells| >= 2 { assert cells[1] == Add(cells[0], dir); } else { assert OpenCell(m, Add(cells[0], dir)); }
    }
    forall i | 0 <= i < |cells| ensures InBounds(m, cells[i]) && !InInner(r, cells[i]) {
      RunIsStraight(cells, dir, i);
    }
    forall i | 0 <= i < |cells| - 1 ensures cells[i] != cells[|cells| - 1] {
      RunIsStraight(cells, dir, i);
      RunIsStraight(cells, dir, |cells| - 1);
    }
  }

  /** `for loc in lst[:-1]: tiles[loc] = floor`, then `tiles[lst[-1]] = hidden_passage`. */
  function CarveTunnel(m: Level, cells: seq<Loc>): (r: Level)
    requires |cells| >= 1 && forall i | 0 <= i < |cells| :: InBounds(m, cells[i])
    ensures Width(r) == Width(m) && Height(r) == Height(m) && r == m.(tiles := r.tiles)
    ensures InBounds(r, cells[|cells| - 1]) && TileAt(r, cells[|cells| - 1]) == HiddenPassageTile
    ensures forall p | InBounds(m, p) && p != cells[|cells| - 1] ::
      TileAt(r, p) == if p in cells then FloorTile else TileAt(m, p)
  {
    var body := cells[..|cells| - 1];
    assert forall p :: p in cells <==> p in body || p == cells[|cells| - 1] by {
      assert cells == body + [cells[|cells| - 1]];
    }
    SetTile(CarveAll(m, body, FloorTile), cells[|cells| - 1], HiddenPassageTile)
  }

  /** `tiles[r.inner] = floor`. */
  function CarveRoom(m: Level, r: Room): (m': Level)
    requires Small(m, r)
    ensures Width(m') == Width(m) && Height(m') == Height(m) && m' == m.(tiles := m'.tiles)
    ensures forall p | InBounds(m, p) :: TileAt(m', p) == if InInner(r, p) then FloorTile else TileAt(m, p)
  {
    var inner := GridCells(r.y1 + 1, r.y2, r.x1 + 1, r.x2);
    assert forall i | 0 <= i < |inner| :: InBounds(m, inner[i]) by {
      forall i | 0 <= i < |inner| ensures InBounds(m, inner[i]) { assert inner[i] in inner; }
    }
    CarveAll(m, inner, FloorTile)
  }

  /** Every cell of `r.locs()`, which are in bounds for a candidate room, is a wall. */
  predicate Sealed(m: Level, r: Room)
    requires Small(m, r)
  {
    forall l | l in Locs(r) :: InBounds(m, l) && !Walkable(m, l)
  }

  predicate Apart(r: Room, rooms: seq<Room>)
  {
    forall k | 0 <= k < |rooms| :: !Intersects(r, rooms[k])
  }

  /** The room placed, which search reached it and the tunnel carved to it. */
  datatype Hidden = Hidden(room: Room, probe: nat, tunnel: seq<Loc>)

  /** What carving a hidden room does to the tiles of `m`, giving `m'`: the inner cells become
      floor, the tunnel becomes floor except its last cell, which becomes the hidden passage, and
      the passage leads to a walkable cell; nothing else changes. */
  ghost predicate CarvedAs(m: Level, h: Hidden, m': Level)
    requires h.probe < 4 && |h.tunnel| >= 1
  {
    var last := h.tunnel[|h.tunnel| - 1];
    && Width(m') == Width(m) && Height(m') == Height(m) && m' == m.(tiles := m'.tiles)
    && (forall p | InInner(h.room, p) :: InBounds(m, p) && TileAt(m', p) == FloorTile)
    && InBounds(m', last) && TileAt(m', last) == HiddenPassageTile
    && (forall i | 0 <= i < |h.tunnel| - 1 :: InBounds(m', h.tunnel[i]) && TileAt(m', h.tunnel[i]) == FloorTile)
    && OpenCell(m', Add(last, Probes(h.room)[h.probe].1))
    && (forall p | InBounds(m, p) && p !in h.tunnel && !InInner(h.room, p) :: TileAt(m', p) == TileAt(m, p))
  }

  /** The three tests of `hidden_room`: the candidate touches no room, holds no walkable cell
      and one of its searches finds a tunnel. */
  predicate Passes(m: Level, rooms: seq<Room>, c: Room)
    requires Small(m, c)
  {
    Apart(c, rooms) && Sealed(m, c) && HiddenRoomTunnel(m, c).Some?
  }

  /** `hidden_room`: up to fifty candidates; the first that passes the three tests is carved
      out. Of the level, only the tiles are modelled as changing. */
  function HiddenRoom(m: Level, rooms: seq<Room>, draws: seq<(nat, nat)>): (r: (Level, Option<Hidden>))
    requires Width(m) >= 6 && Height(m) >= 6
    ensures r.1.None? ==> r.0 == m
    ensures r.1.None? <==> forall i | 0 <= i < |draws| :: !Passes(m, rooms, Candidate(m, draws[i]))
    ensures r.1.Some? ==> exists i | 0 <= i < |draws| ::
      && Candidate(m, draws[i]) == r.1.value.room
      && Passes(m, rooms, Candidate(m, draws[i]))
      && (forall j | 0 <= j < i :: !Passes(m, rooms, Candidate(m, draws[j])))
    ensures r.1.Some? ==> HiddenRoomTunnel(m, r.1.value.room) == Some(Tunnel(r.1.value.probe, r.1.value.tunnel))
    ensures r.1.Some? ==>
      var h := r.1.value;
      && Small(m, h.room) && Apart(h.room, rooms) && Sealed(m, h.room)
      && h.probe < 4 && |h.tunnel| >= 1
      && FindWalkable(m, Probes(h.room)[h.probe].0, Probes(h.room)[h.probe].1) == Some(h.tunnel)
      && CarvedAs(m, h, r.0)
    ensures (forall i | 0 <= i < |draws| :: !Apart(Candidate(m, draws[i]), rooms)) ==> r.1.None?
    decreases |draws|
  {
    if draws == [] then (m, None)
    else
      var c := Candidate(m, draws[0]);
      var rest := HiddenRoom(m, rooms, draws[1..]);
      ClashLater(m, rooms, draws);
      if !Passes(m, rooms, c) then
        ShiftDraws(m, rooms, draws, rest);
        FirstFails(m, rooms, draws, rest);
        rest
      else
        var t := HiddenRoomTunnel(m, c).value;
        FirstPasses(m, rooms, draws);
        Carved(m, c, t)
  }

  /** When the first draw fails, the first passing draw is the first of the rest. */
  lemma FirstFails(m: Level, rooms: seq<Room>, draws: seq<(nat, nat)>, rest: (Level, Option<Hidden>))
    requires Width(m) >= 6 && Height(m) >= 6 && draws != []
    requires !Passes(m, rooms, Candidate(m, draws[0]))
    requires rest.1.None? <==> forall i | 1 <= i < |draws| :: !Passes(m, rooms, Candidate(m, draws[i]))
    requires rest.1.Some? ==> exists i | 1 <= i < |draws| ::
      && Candidate(m, draws[i]) == rest.1.value.room
      && Passes(m, rooms, Candidate(m, draws[i]))
      && (forall j | 1 <= j < i :: !Passes(m, rooms, Candidate(m, draws[j])))
    ensures rest.1.None? <==> forall i | 0 <= i < |draws| :: !Passes(m, rooms, Candidate(m, draws[i]))
    ensures rest.1.Some? ==> exists i | 0 <= i < |draws| ::
      && Candidate(m, draws[i]) == rest.1.value.room
      && Passes(m, rooms, Candidate(m, draws[i]))
      && (forall j | 0 <= j < i :: !Passes(m, rooms, Candidate(m, draws[j])))
  {
    if rest.1.Some? {
      var i :| 1 <= i < |draws|
        && Candidate(m, draws[i]) == rest.1.value.room
        && Passes(m, rooms, Candidate(m, draws[i]))
        && (forall j | 1 <= j < i :: !Passes(m, rooms, Candidate(m, draws[j])));
      FirstFailsAt(m, rooms, draws, i);
    } else {
      NoneFromOne(m, rooms, draws);
    }
  }

  /** A draw that passes after a failing first draw and failing draws in between is the first
      draw that passes. */
  lemma FirstFailsAt(m: Level, rooms: seq<Room>, draws: seq<(nat, nat)>, i: nat)
    requires Width(m) >= 6 && Height(m) >= 6 && 1 <= i < |draws|
    requires !Passes(m, rooms, Candidate(m, draws[0]))
    requires forall j | 1 <= j < i :: !Passes(m, rooms, Candidate(m, draws[j]))
    ensures forall j | 0 <= j < i :: !Passes(m, rooms, Candidate(m, draws[j]))
  {
  }

  /** A failing first draw followed by failing draws means every draw fails. */
  lemma NoneFromOne(m: Level, rooms: seq<Room>, draws: seq<(nat, nat)>)
    requires Width(m) >= 6 && Height(m) >= 6 && draws != []
    requires !Passes(m, rooms, Candidate(m, draws[0]))
    requires forall i | 1 <= i < |draws| :: !Passes(m, rooms, Candidate(m, draws[i]))
    ensures forall i | 0 <= i < |draws| :: !Passes(m, rooms, Candidate(m, draws[i]))
  {
  }

  /** When the first draw passes, it is the first passing draw. */
  lemma FirstPasses(m: Level, rooms: seq<Room>, draws: seq<(nat, nat)>)
    requires Width(m) >= 6 && Height(m) >= 6 && draws != []
    requires Passes(m, rooms, Candidate(m, draws[0]))
    ensures !forall i | 0 <= i < |draws| :: !Passes(m, rooms, Candidate(m, draws[i]))
    ensures exists i | 0 <= i < |draws| ::
      && Candidate(m, draws[i]) == Candidate(m, draws[0])
      && Passes(m, rooms, Candidate(m, draws[i]))
      && (forall j | 0 <= j < i :: !Passes(m, rooms, Candidate(m, draws[j])))
  {
    assert Candidate(m, draws[0]) == Candidate(m, draws[0]);
  }

  /** The contract of `HiddenRoom` on `draws[1..]`, restated for the indices of `draws`. */
  lemma ShiftDraws(m: Level, rooms: seq<Room>, draws: seq<(nat, nat)>, rest: (Level, Option<Hidden>))
    requires Width(m) >= 6 && Height(m) >= 6 && draws != []
    requires rest.1.None? <==> forall i | 0 <= i < |draws[1..]| :: !Passes(m, rooms, Candidate(m, draws[1..][i]))
    requires rest.1.Some? ==> exists i | 0 <= i < |draws[1..]| ::
      && Candidate(m, draws[1..][i]) == rest.1.value.room
      && Passes(m, rooms, Candidate(m, draws[1..][i]))
      && (forall j | 0 <= j < i :: !Passes(m, rooms, Candidate(m, draws[1..][j])))
    ensures rest.1.None? <==> forall i | 1 <= i < |draws| :: !Passes(m, rooms, Candidate(m, draws[i]))
    ensures rest.1.Some? ==> exists i | 1 <= i < |draws| ::
      && Candidate(m, draws[i]) == rest.1.value.room
      && Passes(m, rooms, Candidate(m, draws[i]))
      && (forall j | 1 <= j < i :: !Passes(m, rooms, Candidate(m, draws[j])))
  {
    forall i | 0 <= i < |draws[1..]| ensures draws[1..][i] == draws[i + 1] { }
    if rest.1.Some? {
      var i :| 0 <= i < |draws[1..]|
        && Candidate(m, draws[1..][i]) == rest.1.value.room
        && Passes(m, rooms, Candidate(m, draws[1..][i]))
        && (forall j | 0 <= j < i :: !Passes(m, rooms, Candidate(m, draws[1..][j])));
      assert Candidate(m, draws[i + 1]) == rest.1.value.room;
    }
  }

  lemma ClashLater(m: Level, rooms: seq<Room>, draws: seq<(nat, nat)>)
    requires Width(m) >= 6 && Height(m) >= 6 && draws != []
    ensures (forall i | 0 <= i < |draws| :: !Apart(Candidate(m, draws[i]), rooms)) ==>
      forall i | 0 <= i < |draws[1..]| :: !Apart(Candidate(m, draws[1..][i]), rooms)
  {
    forall i | 0 <= i < |draws[1..]| ensures draws[1..][i] == draws[i + 1] { }
  }

  /** The carving step of `hidden_room` for a candidate that passed every test. */
  function Carved(m: Level, c: Room, t: Tunnel): (r: (Level, Option<Hidden>))
    requires Small(m, c)
    requires t.probe < 4 && FindWalkable(m, Probes(c)[t.probe].0, Probes(c)[t.probe].1) == Some(t.cells)
    ensures r.1 == Some(Hidden(c, t.probe, t.cells)) && |t.cells| >= 1
    ensures CarvedAs(m, r.1.value, r.0)
  {
    CarveFacts(m, c, t);
    (CarveRoom(CarveTunnel(m, t.cells), c), Some(Hidden(c, t.probe, t.cells)))
  }

  lemma CarveFacts(m: Level, c: Room, t: Tunnel)
    requires Small(m, c)
    requires t.probe < 4 && FindWalkable(m, Probes(c)[t.probe].0, Probes(c)[t.probe].1) == Some(t.cells)
    ensures TunnelOk(m, c, t.cells)
    ensures CarvedAs(m, Hidden(c, t.probe, t.cells), CarveRoom(CarveTunnel(m, t.cells), c))
  {
    TunnelShape(m, c, t.probe, t.cells);
    var m1 := CarveTunnel(m, t.cells);
    var m2 := CarveRoom(m1, c);
    CarvedTiles(m, c, t.probe, t.cells, m1, m2);
  }

  lemma CarvedTiles(m: Level, c: Room, k: nat, cells: seq<Loc>, m1: Level, m2: Level)
    requires Small(m, c) && k < 4 && TunnelOk(m, c, cells)
    requires WalkFound(m, Probes(c)[k].0, Probes(c)[k].1, cells)
    requires Width(m1) == Width(m) && Height(m1) == Height(m) && m1 == m.(tiles := m1.tiles)
    requires TileAt(m1, cells[|cells| - 1]) == HiddenPassageTile
    requires forall p | InBounds(m, p) && p != cells[|cells| - 1] ::
      TileAt(m1, p) == if p in cells then FloorTile else TileAt(m, p)
    requires Width(m2) == Width(m) && Height(m2) == Height(m) && m2 == m1.(tiles := m2.tiles)
    requires forall p | InBounds(m1, p) :: TileAt(m2, p) == if InInner(c, p) then FloorTile else TileAt(m1, p)
    ensures CarvedAs(m, Hidden(c, k, cells), m2)
  {
    var last := cells[|cells| - 1];
    var dir := Probes(c)[k].1;
    forall i | 0 <= i < |cells| - 1 ensures InBounds(m2, cells[i]) && TileAt(m2, cells[i]) == FloorTile {
      assert cells[i] in cells;
    }
    var next := Add(last, dir);
    assert OpenCell(m, next);
    assert next != last;
  }
}
