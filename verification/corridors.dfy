/** Corridor shapes of procgen.py: `line`, `z_line` and `l_line`. */
module Corridors {
  import opened Common
  import opened Grid
  import Rooms

  /** Which coordinate `line` holds fixed: `line(a, b, y=Y)` walks row `Y`,
      `line(a, b, x=X)` walks column `X`. */
  datatype Axis = Row(y: int) | Column(x: int)

  function At(axis: Axis, c: int): Loc
  {
    match axis
    case Row(y) => Loc(c, y)
    case Column(x) => Loc(x, c)
  }

  /** `line` tests `if x:`, so a column at `x = 0` would be taken for a row; the model
      only admits columns away from 0 (map columns used for corridors are never 0). */
  predicate Usable(axis: Axis)
  {
    axis.Column? ==> axis.x != 0
  }

  /** `l` is one of the cells from `a` to `b` (either order, both included) on `axis`. */
  predicate OnLine(l: Loc, axis: Axis, a: int, b: int)
  {
    match axis
    case Row(y) => l.y == y && Min(a, b) <= l.x <= Max(a, b)
    case Column(x) => l.x == x && Min(a, b) <= l.y <= Max(a, b)
  }

  function Span(lo: int, hi: int, axis: Axis): (r: seq<Loc>)
    decreases hi - lo
    ensures |r| == if lo <= hi then hi - lo + 1 else 0
    ensures forall i :: 0 <= i < |r| ==> r[i] == At(axis, lo + i)
  {
    if lo > hi then [] else [At(axis, lo)] + Span(lo + 1, hi, axis)
  }

  /** `line(a, b, x=.., y=..)`: the endpoints are put in order and every cell from the smaller to
      the larger is listed, both included: `max - min + 1` cells along one axis. */
  function Line(a: int, b: int, axis: Axis): (r: seq<Loc>)
    requires Usable(axis)
    ensures |r| == Max(a, b) - Min(a, b) + 1
    ensures r[0] == At(axis, Min(a, b)) && r[|r| - 1] == At(axis, Max(a, b))
    ensures forall l :: l in r <==> OnLine(l, axis, a, b)
  {
    var lo, hi := Min(a, b), Max(a, b);
    var r := Span(lo, hi, axis);
    assert forall l :: l in r <==> OnLine(l, axis, a, b) by {
      forall l | OnLine(l, axis, a, b)
        ensures l in r
      {
        var c := if axis.Row? then l.x else l.y;
        assert r[c - lo] == l;
      }
    }
    r
  }

  /** Both corners lie within the box spanned by `a` and `b`. */
  predicate InBox(a: Loc, b: Loc, l: Loc)
  {
    Min(a.x, b.x) <= l.x <= Max(a.x, b.x) && Min(a.y, b.y) <= l.y <= Max(a.y, b.y)
  }

  /** The bend of `z_line` along x: half way (truncated) from the smaller x. */
  function ZMidX(a: Loc, b: Loc): int
  {
    Min(a.x, b.x) + Rooms.HalfTowardZero(Max(a.x, b.x) - Min(a.x, b.x))
  }

  function ZMidY(a: Loc, b: Loc): int
  {
    Min(a.y, b.y) + Rooms.HalfTowardZero(Max(a.y, b.y) - Min(a.y, b.y))
  }

  predicate Wide(a: Loc, b: Loc)
  {
    Abs(a.x - b.x) > Abs(a.y - b.y)
  }

  /** The cells of the Z shape: along the longer axis to the middle, across, and on to the end. */
  predicate OnZ(a: Loc, b: Loc, l: Loc)
  {
    if Wide(a, b) then
      OnLine(l, Row(a.y), a.x, ZMidX(a, b)) || OnLine(l, Column(ZMidX(a, b)), a.y, b.y)
      || OnLine(l, Row(b.y), ZMidX(a, b), b.x)
    else
      OnLine(l, Column(a.x), a.y, ZMidY(a, b)) || OnLine(l, Row(ZMidY(a, b)), a.x, b.x)
      || OnLine(l, Column(b.x), ZMidY(a, b), b.y)
  }

  /** The three legs of a Z bending at column `m`: row of `p`, column `m`, row of `q`. */
  function ZAlongX(p: Loc, q: Loc, m: int): (r: seq<Loc>)
    requires p.x <= m <= q.x && m != 0
    ensures p in r && q in r
    ensures forall l :: l in r <==>
      OnLine(l, Row(p.y), p.x, m) || OnLine(l, Column(m), p.y, q.y) || OnLine(l, Row(q.y), m, q.x)
  {
    var r1, r2, r3 := Line(p.x, m, Row(p.y)), Line(p.y, q.y, Column(m)), Line(m, q.x, Row(q.y));
    assert p in r1 && q in r3;
    r1 + r2 + r3
  }

  /** The three legs of a Z bending at row `m`: column of `p`, row `m`, column of `q`. */
  function ZAlongY(p: Loc, q: Loc, m: int): (r: seq<Loc>)
    requires p.y <= m <= q.y && p.x != 0 && q.x != 0
    ensures p in r && q in r
    ensures forall l :: l in r <==>
      OnLine(l, Column(p.x), p.y, m) || OnLine(l, Row(m), p.x, q.x) || OnLine(l, Column(q.x), m, q.y)
  {
    var r1, r2, r3 := Line(p.y, m, Column(p.x)), Line(p.x, q.x, Row(m)), Line(m, q.y, Column(q.x));
    assert p in r1 && q in r3;
    r1 + r2 + r3
  }

  /** Every cell of the Z shape lies in the endpoints' bounding box. */
  lemma OnZInBox(a: Loc, b: Loc, l: Loc)
    requires OnZ(a, b, l)
    ensures InBox(a, b, l)
  {
  }

  function ZWide(a: Loc, b: Loc): (r: seq<Loc>)
    requires Wide(a, b) && a.x > 0 && b.x > 0
    ensures a in r && b in r
    ensures forall l :: l in r <==> OnZ(a, b, l)
  {
    var m := ZMidX(a, b);
    if a.x > b.x then
      var r := ZAlongX(b, a, m);
      assert forall l :: l in r <==> OnZ(a, b, l);
      r
    else
      var r := ZAlongX(a, b, m);
      assert forall l :: l in r <==> OnZ(a, b, l);
      r
  }

  function ZTall(a: Loc, b: Loc): (r: seq<Loc>)
    requires !Wide(a, b) && a.x > 0 && b.x > 0
    ensures a in r && b in r
    ensures forall l :: l in r <==> OnZ(a, b, l)
  {
    var m := ZMidY(a, b);
    if a.y > b.y then
      var r := ZAlongY(b, a, m);
      assert forall l :: l in r <==> OnZ(a, b, l);
      r
    else
      var r := ZAlongY(a, b, m);
      assert forall l :: l in r <==> OnZ(a, b, l);
      r
  }

  /** `z_line(a, b)`: exactly the cells of the Z shape. It holds both endpoints and stays in
      their bounding box. */
  function ZLine(a: Loc, b: Loc): (r: seq<Loc>)
    requires a.x > 0 && b.x > 0
    ensures a in r && b in r
    ensures forall l :: l in r <==> OnZ(a, b, l)
    ensures forall l :: l in r ==> InBox(a, b, l)
  {
    var r := if Wide(a, b) then ZWide(a, b) else ZTall(a, b);
    assert forall l :: l in r ==> InBox(a, b, l) by {
      forall l | l in r ensures InBox(a, b, l) { OnZInBox(a, b, l); }
    }
    r
  }

  /** The end of `l_line` with the smaller x (the first argument on a tie) and the other one. */
  function LeftEnd(a: Loc, b: Loc): Loc { if a.x > b.x then b else a }
  function RightEnd(a: Loc, b: Loc): Loc { if a.x > b.x then a else b }

  /** The cells of the L shape: along the row of the left end, then up or down the column of the
      right end. */
  predicate OnL(a: Loc, b: Loc, l: Loc)
  {
    OnLine(l, Row(LeftEnd(a, b).y), a.x, b.x) || OnLine(l, Column(RightEnd(a, b).x), a.y, b.y)
  }

  /** `l_line(a, b)`: exactly the cells of the L shape, both endpoints included. */
  function LLine(a: Loc, b: Loc): (r: seq<Loc>)
    requires Max(a.x, b.x) != 0
    ensures a in r && b in r
    ensures forall l :: l in r <==> OnL(a, b, l)
    ensures forall l :: l in r ==> InBox(a, b, l)
  {
    var (p, q) := if a.x > b.x then (b, a) else (a, b);
    var h := Line(p.x, q.x, Row(p.y));
    var v := Line(p.y, q.y, Column(q.x));
    assert p in h && q in v;
    h + v
  }
}
