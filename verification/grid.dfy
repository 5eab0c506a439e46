/** Grid geometry of util.py: the integer location `Loc`. */
module Grid {
  import opened Common

  /** An integer point of the map. Python's `Loc` has no `__bool__` or `__len__`,
      so every location, `Loc(0,0)` included, is truthy. */
  datatype Loc = Loc(x: int, y: int)

  /** `a + b`: component-wise sum. */
  function Add(a: Loc, b: Loc): Loc
  {
    Loc(a.x + b.x, a.y + b.y)
  }

  function Neg(a: Loc): Loc
  {
    Loc(-a.x, -a.y)
  }

  /** `a.dir_to(b)`: the raw (not normalised) delta from `a` to `b`. */
  function DirTo(a: Loc, b: Loc): (d: Loc)
    ensures Add(a, d) == b
    ensures d == Loc(0, 0) <==> a == b
  {
    Loc(b.x - a.x, b.y - a.y)
  }

  /** `a.mod(mx, my)`: the location offset by `(mx, my)`; the same as adding `Loc(mx, my)`. */
  function Mod(a: Loc, mx: int, my: int): (r: Loc)
    ensures r == Add(a, Loc(mx, my))
    ensures DirTo(a, r) == Loc(mx, my)
  {
    Loc(a.x + mx, a.y + my)
  }

  /** `a.dist(b)`: Chebyshev distance. */
  function Dist(a: Loc, b: Loc): (d: nat)
    ensures d >= Abs(b.x - a.x) && d >= Abs(b.y - a.y)
    ensures d == Abs(b.x - a.x) || d == Abs(b.y - a.y)
  {
    Max(Abs(b.x - a.x), Abs(b.y - a.y))
  }

  lemma DistSymmetric(a: Loc, b: Loc)
    ensures Dist(a, b) == Dist(b, a)
  {
  }

  lemma DistZeroIffSame(a: Loc, b: Loc)
    ensures Dist(a, b) == 0 <==> a == b
  {
  }

  /** The triangle inequality, used to bound the reach of area effects. */
  lemma DistTriangle(a: Loc, b: Loc, c: Loc)
    ensures Dist(a, c) <= Dist(a, b) + Dist(b, c)
  {
  }

  /** `a.adj()`: the eight neighbouring cells. */
  function Adj(p: Loc): (s: set<Loc>)
    ensures forall l :: l in s <==> Dist(p, l) == 1
    ensures p !in s
    ensures |s| == 8
  {
    var s := {Loc(p.x + 1, p.y), Loc(p.x - 1, p.y), Loc(p.x, p.y + 1), Loc(p.x, p.y - 1),
              Loc(p.x + 1, p.y + 1), Loc(p.x - 1, p.y - 1), Loc(p.x + 1, p.y - 1), Loc(p.x - 1, p.y + 1)};
    NeighboursAreAdjacent(p, s);
    EightNeighbours(p);
    s
  }

  lemma NeighboursAreAdjacent(p: Loc, s: set<Loc>)
    requires s == {Loc(p.x + 1, p.y), Loc(p.x - 1, p.y), Loc(p.x, p.y + 1), Loc(p.x, p.y - 1),
                   Loc(p.x + 1, p.y + 1), Loc(p.x - 1, p.y - 1), Loc(p.x + 1, p.y - 1), Loc(p.x - 1, p.y + 1)}
    ensures forall l :: l in s <==> Dist(p, l) == 1
  {
    forall l | Dist(p, l) == 1
      ensures l in s
    {
      var dx, dy := l.x - p.x, l.y - p.y;
      assert -1 <= dx <= 1 && -1 <= dy <= 1 && (dx != 0 || dy != 0);
      assert l == Loc(p.x + dx, p.y + dy);
    }
  }

  lemma EightNeighbours(p: Loc)
    ensures |{Loc(p.x + 1, p.y), Loc(p.x - 1, p.y), Loc(p.x, p.y + 1), Loc(p.x, p.y - 1),
              Loc(p.x + 1, p.y + 1), Loc(p.x - 1, p.y - 1), Loc(p.x + 1, p.y - 1), Loc(p.x - 1, p.y + 1)}| == 8
  {
    var s0: set<Loc> := {};
    var s1 := s0 + {Loc(p.x + 1, p.y)};
    var s2 := s1 + {Loc(p.x - 1, p.y)};
    var s3 := s2 + {Loc(p.x, p.y + 1)};
    var s4 := s3 + {Loc(p.x, p.y - 1)};
    var s5 := s4 + {Loc(p.x + 1, p.y + 1)};
    var s6 := s5 + {Loc(p.x - 1, p.y - 1)};
    var s7 := s6 + {Loc(p.x + 1, p.y - 1)};
    var s8 := s7 + {Loc(p.x - 1, p.y + 1)};
    assert |s8| == 8;
    assert s8 == {Loc(p.x + 1, p.y), Loc(p.x - 1, p.y), Loc(p.x, p.y + 1), Loc(p.x, p.y - 1),
                  Loc(p.x + 1, p.y + 1), Loc(p.x - 1, p.y - 1), Loc(p.x + 1, p.y - 1), Loc(p.x - 1, p.y + 1)};
  }

  /** `a.adj_locs(include_self)`: the neighbours, plus the location itself when asked.
      The Python list has set-iteration order, which the model does not fix. */
  function AdjLocs(p: Loc, includeSelf: bool): (s: set<Loc>)
    ensures forall l :: l in s <==> Dist(p, l) == 1 || (includeSelf && l == p)
    ensures p in s <==> includeSelf
    ensures |s| == if includeSelf then 9 else 8
  {
    if includeSelf then Adj(p) + {p} else Adj(p)
  }

  /** `a < b`: tuple comparison, lexicographic on `(x, y)`. */
  predicate Less(a: Loc, b: Loc)
  {
    a.x < b.x || (a.x == b.x && a.y < b.y)
  }

  /** `Less` is a strict total order on locations. */
  lemma LessIsStrictTotalOrder(a: Loc, b: Loc, c: Loc)
    ensures !Less(a, a)
    ensures Less(a, b) && Less(b, c) ==> Less(a, c)
    ensures a != b ==> (Less(a, b) <==> !Less(b, a))
  {
  }

  /** `a == o` where `o` may be `None`: Python's `o and tuple(a) == tuple(o)`.
      Because a `Loc` is always truthy, `Loc(0,0)` is equal to itself and is never mistaken
      for "no location"; only `None` compares unequal to every location. */
  predicate LocEq(a: Loc, o: Option<Loc>)
  {
    o.Some? && a.x == o.value.x && a.y == o.value.y
  }

  lemma LocEqIsCoordinateEquality(a: Loc, o: Option<Loc>)
    ensures LocEq(a, o) <==> o == Some(a)
    ensures LocEq(Loc(0, 0), Some(Loc(0, 0)))
  {
  }

  /** `perpendicular_dirs(m)` as written: `[Loc(m.y, m.x), Loc(-m.y, -m.x)]`. */
  function PerpendicularDirs(m: Loc): (r: seq<Loc>)
    ensures |r| == 2 && r[1] == Neg(r[0])
    ensures IsCardinalUnit(m) ==> IsCardinalUnit(r[0]) && IsCardinalUnit(r[1])
    ensures IsCardinalUnit(m) ==> Dot(m, r[0]) == 0 && Dot(m, r[1]) == 0
  {
    var a, b := Loc(m.y, m.x), Loc(-m.y, -m.x);
    SwapIsPerpendicularForCardinals(m, a, b);
    [a, b]
  }

  lemma SwapIsPerpendicularForCardinals(m: Loc, a: Loc, b: Loc)
    requires a == Loc(m.y, m.x) && b == Loc(-m.y, -m.x)
    ensures IsCardinalUnit(m) ==> IsCardinalUnit(a) && IsCardinalUnit(b) && Dot(m, a) == 0 && Dot(m, b) == 0
  {
    if IsCardinalUnit(m) {
      if m.x == 0 {
        assert Dot(m, a) == 0 * m.y + m.y * 0;
        assert Dot(m, b) == 0 * -m.y + m.y * 0;
      } else {
        assert Dot(m, a) == m.x * 0 + 0 * m.x;
        assert Dot(m, b) == m.x * 0 + 0 * -m.x;
      }
    }
  }

  predicate IsCardinalUnit(m: Loc)
  {
    (m.x == 0 && (m.y == 1 || m.y == -1)) || (m.y == 0 && (m.x == 1 || m.x == -1))
  }

  predicate IsUnitDir(m: Loc)
  {
    -1 <= m.x <= 1 && -1 <= m.y <= 1 && m != Loc(0, 0)
  }

  function Dot(a: Loc, b: Loc): int
  {
    a.x * b.x + a.y * b.y
  }

  /** As written, `perpendicular_dirs` returns the direction itself and its reverse for a
      diagonal direction: for `(1,1)` it yields `(1,1)` and `(-1,-1)`, not perpendiculars. */
  lemma PerpendicularDirsDiagonalCounterexample()
    ensures PerpendicularDirs(Loc(1, 1)) == [Loc(1, 1), Loc(-1, -1)]
    ensures Dot(Loc(1, 1), PerpendicularDirs(Loc(1, 1))[0]) != 0
  {
  }

  /** The evidently intended perpendiculars: a quarter turn each way. For a cardinal direction
      they are the same two directions as `PerpendicularDirs`. */
  function PerpendicularDirsFixed(m: Loc): (r: seq<Loc>)
    ensures |r| == 2 && r[1] == Neg(r[0])
    ensures Dot(m, r[0]) == 0 && Dot(m, r[1]) == 0
    ensures IsUnitDir(m) ==> IsUnitDir(r[0]) && IsUnitDir(r[1])
  {
    var a, b := Loc(m.y, -m.x), Loc(-m.y, m.x);
    QuarterTurnIsPerpendicular(m, a, b);
    QuarterTurnKeepsUnits(m, a, b);
    [a, b]
  }

  /** On the four cardinal directions, where the game uses it, the fix changes nothing
      but the order of the pair. */
  lemma FixedAgreesOnCardinals(m: Loc)
    requires IsCardinalUnit(m)
    ensures {PerpendicularDirsFixed(m)[0], PerpendicularDirsFixed(m)[1]} == {PerpendicularDirs(m)[0], PerpendicularDirs(m)[1]}
  {
    QuarterTurnMatchesSwapOnCardinals(m, Loc(m.y, -m.x), Loc(-m.y, m.x));
  }

  lemma QuarterTurnIsPerpendicular(m: Loc, a: Loc, b: Loc)
    requires a == Loc(m.y, -m.x) && b == Loc(-m.y, m.x)
    ensures Dot(m, a) == 0 && Dot(m, b) == 0
  {
    assert m.x * m.y + m.y * -m.x == 0;
    assert m.x * -m.y + m.y * m.x == 0;
  }

  lemma QuarterTurnKeepsUnits(m: Loc, a: Loc, b: Loc)
    requires a == Loc(m.y, -m.x) && b == Loc(-m.y, m.x)
    ensures IsUnitDir(m) ==> IsUnitDir(a) && IsUnitDir(b)
  {
  }

  lemma QuarterTurnMatchesSwapOnCardinals(m: Loc, a: Loc, b: Loc)
    requires a == Loc(m.y, -m.x) && b == Loc(-m.y, m.x)
    requires IsCardinalUnit(m)
    ensures {a, b} == {Loc(m.y, m.x), Loc(-m.y, -m.x)}
  {
    if m.x == 0 {
      assert a == Loc(m.y, 0) && b == Loc(-m.y, 0);
    } else {
      assert a == Loc(0, -m.x) && b == Loc(0, m.x);
    }
  }
}
