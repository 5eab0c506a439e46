/** Room rectangles, intervals and clamping from procgen.py. */
module Rooms {
  import opened Common
  import opened Grid

  /** `RectangularRoom`: corners `(x1,y1)` and `(x2,y2)`, the `auspicious` buff counter and
      the wall cells where corridors attach (`entries`). */
  datatype Room = Room(x1: int, y1: int, x2: int, y2: int, auspicious: nat, entries: seq<Loc>)

  /** `RectangularRoom(x, y, width, height)`. */
  function NewRoom(x: int, y: int, width: int, height: int): Room
  {
    Room(x, y, x + width, y + height, 0, [])
  }

  predicate Ordered(r: Room)
  {
    r.x1 <= r.x2 && r.y1 <= r.y2
  }

  function P1(r: Room): Loc { Loc(r.x1, r.y1) }
  function P2(r: Room): Loc { Loc(r.x2, r.y2) }

  /** Python's `int(n / 2)`: true division, then truncation toward zero. */
  function HalfTowardZero(n: int): (h: int)
    ensures n >= 0 ==> 0 <= 2 * h <= n && n - 2 * h <= 1
    ensures n < 0 ==> n <= 2 * h <= 0 && 2 * h - n <= 1
  {
    if n >= 0 then n / 2 else -((-n) / 2)
  }

  /** `loc in room`: inclusive on all four edges. */
  predicate Contains(r: Room, l: Loc)
  {
    r.x1 <= l.x <= r.x2 && r.y1 <= l.y <= r.y2
  }

  /** `room.center`: the truncated midpoint, which lies inside every ordered room. */
  function Center(r: Room): (c: Loc)
    ensures Ordered(r) ==> Contains(r, c)
  {
    Loc(HalfTowardZero(r.x1 + r.x2), HalfTowardZero(r.y1 + r.y2))
  }

  /** The cells of `room.inner` (the slices `x1+1 .. x2-1`, `y1+1 .. y2-1`): what the generator
      carves to floor. */
  predicate InInner(r: Room, l: Loc)
  {
    r.x1 + 1 <= l.x < r.x2 && r.y1 + 1 <= l.y < r.y2
  }

  lemma InnerIsContained(r: Room, l: Loc)
    requires InInner(r, l)
    ensures Contains(r, l) && l != P1(r)
  {
  }

  /** One row `y` of cells `xs .. xe-1`, left to right. */
  function RowCells(y: int, xs: int, xe: int): (r: seq<Loc>)
    decreases xe - xs
    ensures |r| == if xs < xe then xe - xs else 0
    ensures forall l :: l in r <==> l.y == y && xs <= l.x < xe
    ensures forall i, j :: 0 <= i < j < |r| ==> r[i] != r[j]
  {
    if xs >= xe then [] else [Loc(xs, y)] + RowCells(y, xs + 1, xe)
  }

  /** The cells of rows `ys .. ye-1`, row by row: the order of the nested `for y: for x:` loops. */
  function GridCells(ys: int, ye: int, xs: int, xe: int): (r: seq<Loc>)
    decreases ye - ys
    ensures forall l :: l in r <==> ys <= l.y < ye && xs <= l.x < xe
    ensures forall i, j :: 0 <= i < j < |r| ==> r[i] != r[j]
    ensures |r| == 0 <==> ys >= ye || xs >= xe
  {
    if ys >= ye then []
    else
      var row, rest := RowCells(ys, xs, xe), GridCells(ys + 1, ye, xs, xe);
      assert forall i, j :: 0 <= i < |row| && 0 <= j < |rest| ==> row[i].y < rest[j].y;
      row + rest
  }

  /** `room.inner2()`: the corners shrunk by 2. */
  function Inner2(r: Room): (Loc, Loc)
  {
    (Loc(r.x1 + 2, r.y1 + 2), Loc(r.x2 - 2, r.y2 - 2))
  }

  /** `room.inner2_locs()`: the cells two or more steps inside the room, where stairs go.
      Every cell is strictly inside the room, so never on its wall. */
  function Inner2Locs(r: Room): (s: seq<Loc>)
    ensures forall l :: l in s <==> r.x1 + 2 <= l.x < r.x2 - 2 && r.y1 + 2 <= l.y < r.y2 - 2
    ensures forall l :: l in s ==> InInner(r, l) && Contains(r, l)
    ensures forall i, j :: 0 <= i < j < |s| ==> s[i] != s[j]
    ensures |s| > 0 <==> r.x2 - r.x1 >= 5 && r.y2 - r.y1 >= 5
  {
    var (p1, p2) := Inner2(r);
    GridCells(p1.y, p2.y, p1.x, p2.x)
  }

  /** `room.locs()` (called without `check`): every cell of `x1 .. x2-1` by `y1 .. y2-1`. */
  function Locs(r: Room): (s: seq<Loc>)
    ensures forall l :: l in s <==> r.x1 <= l.x < r.x2 && r.y1 <= l.y < r.y2
    ensures forall l :: l in s ==> Contains(r, l)
  {
    GridCells(r.y1, r.y2, r.x1, r.x2)
  }

  /** `room.walls()`: the columns `x1` and `x2` for `y1 <= y < y2` and the rows `y1` and `y2`
      for `x1 <= x < x2`. For an ordered room this is its whole boundary except the corner
      `(x2, y2)`, which the half-open ranges miss. */
  function Walls(r: Room): (w: set<Loc>)
    ensures Ordered(r) ==> forall l :: l in w <==> OnBoundary(r, l) && l != P2(r)
    ensures P2(r) !in w
  {
    var cols := set y | r.y1 <= y < r.y2 :: Loc(r.x1, y);
    var cols2 := set y | r.y1 <= y < r.y2 :: Loc(r.x2, y);
    var rows := set x | r.x1 <= x < r.x2 :: Loc(x, r.y1);
    var rows2 := set x | r.x1 <= x < r.x2 :: Loc(x, r.y2);
    assert forall l :: l in cols <==> l.x == r.x1 && r.y1 <= l.y < r.y2 by {
      forall l: Loc | l.x == r.x1 && r.y1 <= l.y < r.y2 ensures l in cols { assert l == Loc(r.x1, l.y); }
    }
    assert forall l :: l in cols2 <==> l.x == r.x2 && r.y1 <= l.y < r.y2 by {
      forall l: Loc | l.x == r.x2 && r.y1 <= l.y < r.y2 ensures l in cols2 { assert l == Loc(r.x2, l.y); }
    }
    assert forall l :: l in rows <==> l.y == r.y1 && r.x1 <= l.x < r.x2 by {
      forall l: Loc | l.y == r.y1 && r.x1 <= l.x < r.x2 ensures l in rows { assert l == Loc(l.x, r.y1); }
    }
    assert forall l :: l in rows2 <==> l.y == r.y2 && r.x1 <= l.x < r.x2 by {
      forall l: Loc | l.y == r.y2 && r.x1 <= l.x < r.x2 ensures l in rows2 { assert l == Loc(l.x, r.y2); }
    }
    cols + cols2 + rows + rows2
  }

  /** A cell of the room's rectangle that is not strictly inside it. */
  predicate OnBoundary(r: Room, l: Loc)
  {
    Contains(r, l) && !(r.x1 < l.x < r.x2 && r.y1 < l.y < r.y2)
  }

  /** `room.intersects(other)`: overlap of the rectangles grown by a one-cell margin. */
  predicate Intersects(a: Room, b: Room)
  {
    a.x1 - 1 <= b.x2 && a.x2 + 1 >= b.x1 && a.y1 - 1 <= b.y2 && a.y2 + 1 >= b.y1
  }

  lemma IntersectsSymmetric(a: Room, b: Room)
    ensures Intersects(a, b) <==> Intersects(b, a)
  {
  }

  /** Rooms that pass the margin test are at least two cells apart: no cell of one is in or
      next to the other. */
  lemma ApartRoomsKeepDistance(a: Room, b: Room, p: Loc, q: Loc)
    requires !Intersects(a, b)
    requires Contains(a, p) && Contains(b, q)
    ensures Dist(p, q) >= 2
  {
  }

  /** A room always intersects itself, so the generator never places the same rectangle twice. */
  lemma OrderedRoomIntersectsItself(a: Room)
    requires Ordered(a)
    ensures Intersects(a, a)
  {
  }

  /** The margin test only reads the rectangle: buff counters and entries do not matter. */
  lemma IntersectsIgnoresState(a: Room, b: Room, c: Room)
    requires a.x1 == c.x1 && a.y1 == c.y1 && a.x2 == c.x2 && a.y2 == c.y2
    ensures Intersects(a, b) <==> Intersects(c, b)
    ensures Intersects(b, a) <==> Intersects(b, c)
  {
  }

  /** `Interval(a, b)`: the closed integer range `a .. b`. */
  datatype Interval = Interval(a: int, b: int)

  predicate InInterval(i: Interval, c: int)
  {
    i.a <= c <= i.b
  }

  /** `interval.inner()`: both ends moved in by 2. */
  function IntervalInner(i: Interval): (r: Interval)
    ensures forall c :: InInterval(r, c) <==> InInterval(i, c) && i.a + 2 <= c <= i.b - 2
  {
    Interval(i.a + 2, i.b - 2)
  }

  /** `interval.intersects(o)`: the common range `[max(a), min(b)]` when it is non-empty,
      otherwise `None`. */
  function IntervalIntersects(i: Interval, o: Interval): (r: Option<Interval>)
    ensures r.Some? <==> exists c :: InInterval(i, c) && InInterval(o, c)
    ensures r.Some? ==> forall c :: InInterval(r.value, c) <==> InInterval(i, c) && InInterval(o, c)
    ensures r.Some? ==> r.value.a == Max(i.a, o.a) && r.value.b == Min(i.b, o.b)
  {
    var c, d := Max(i.a, o.a), Min(i.b, o.b);
    if d - c >= 0 then
      assert InInterval(i, c) && InInterval(o, c);
      Some(Interval(c, d))
    else
      None
  }

  /** `interval.intersects_inner(o)`. */
  function IntersectsInner(i: Interval, o: Interval): Option<Interval>
  {
    IntervalIntersects(IntervalInner(i), IntervalInner(o))
  }

  function IntervalX(r: Room): Interval { Interval(r.x1, r.x2) }
  function IntervalY(r: Room): Interval { Interval(r.y1, r.y2) }

  predicate StrictlyBetween(c: int, a: int, b: int)
  {
    a < c < b || b < c < a
  }

  /** `room.closest_x(o)`: the pair (x of `o`'s facing edge, x of this room's facing edge).
      When the rooms are side by side, no column strictly between the pair belongs to either
      room, and the pair are edge columns of the two rooms. */
  function ClosestX(s: Room, o: Room): (r: (int, int))
    ensures (r.0 == o.x1 || r.0 == o.x2) && (r.1 == s.x1 || r.1 == s.x2)
    ensures Ordered(s) && Ordered(o) && (o.x1 > s.x2 || o.x2 < s.x1) ==>
      forall x :: StrictlyBetween(x, r.0, r.1) ==> !InInterval(IntervalX(s), x) && !InInterval(IntervalX(o), x)
  {
    if o.x1 > s.x2 then (o.x1, s.x2) else (o.x2, s.x1)
  }

  /** `room.closest_y(o)`: the same along the y axis. */
  function ClosestY(s: Room, o: Room): (r: (int, int))
    ensures (r.0 == o.y1 || r.0 == o.y2) && (r.1 == s.y1 || r.1 == s.y2)
    ensures Ordered(s) && Ordered(o) && (o.y1 > s.y2 || o.y2 < s.y1) ==>
      forall y :: StrictlyBetween(y, r.0, r.1) ==> !InInterval(IntervalY(s), y) && !InInterval(IntervalY(o), y)
  {
    if o.y1 > s.y2 then (o.y1, s.y2) else (o.y2, s.y1)
  }

  /** `env(val, max, min=0)`: clamp `val` into `[min, max]`. If `max < min` the lower bound wins. */
  function Env(val: int, hi: int, lo: int := 0): (r: int)
    ensures lo <= hi ==> lo <= r <= hi
    ensures lo <= val <= hi ==> r == val
    ensures val > hi && lo <= hi ==> r == hi
    ensures val < lo ==> r == lo
    ensures hi < lo ==> r == lo
  {
    var v := if val > hi then hi else val;
    if v < lo then lo else v
  }
}
