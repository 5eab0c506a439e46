/** A game session (engine.py): `new_game` building the first level and the root of the level
    tree, `down()` generating the next level on demand, and `incomplete_nodes` listing the down
    stairs whose level does not exist yet. */
module Session {
  import opened Common
  import opened Grid
  import opened GameMap
  import opened Dungeon
  import opened LevelTree

  // ---------------------------------------------------------------- stairs lead deeper

  /** The map a stair leads to, if any. */
  function Target(st: Option<Stairs>): (r: Option<nat>)
    ensures r.Some? <==> st.Some? && st.value.target.Some?
  {
    if st.Some? then st.value.target else None
  }

  /** A down stair of map `i` leads to a later map among the first `k`. */
  predicate LeadsForward(st: Option<Stairs>, i: nat, k: nat)
  {
    Target(st).Some? ==> i < Target(st).value < k
  }

  /** Every map was made after the map whose stair leads down to it: a new level is always
      appended to the engine's maps. */
  predicate Forward(maps: seq<Level>)
  {
    forall i | 0 <= i < |maps| :: LeadsForward(maps[i].left, i, |maps|) && LeadsForward(maps[i].right, i, |maps|)
  }

  /** A down stair with no level behind it yet. */
  predicate Open(st: Option<Stairs>)
  {
    st.Some? && st.value.target.None?
  }

  /** Map `k` can be reached from map `i` by going down stairs. */
  ghost predicate Reaches(maps: seq<Level>, i: nat, k: nat)
    requires Forward(maps) && i < |maps|
    decreases |maps| - i
  {
    || i == k
    || (Target(maps[i].left).Some? && Reaches(maps, Target(maps[i].left).value, k))
    || (Target(maps[i].right).Some? && Reaches(maps, Target(maps[i].right).value, k))
  }

  // ---------------------------------------------------------------- incomplete_nodes

  /** `Engine.incomplete_nodes(maps[i], lst)`: the left subtree's entries, then the right
      subtree's, then map `i` once for an open left stair and once for an open right stair. The
      side paired with each entry is the flag (`incomplete_left` / `incomplete_right`) that the
      same step sets on the map. */
  function IncompleteNodes(maps: seq<Level>, i: nat): (r: seq<(nat, Side)>)
    requires Forward(maps) && i < |maps|
    ensures forall p | p in r :: i <= p.0 < |maps|
    decreases |maps| - i
  {
    var m := maps[i];
    (if Target(m.left).Some? then IncompleteNodes(maps, Target(m.left).value) else [])
    + (if Target(m.right).Some? then IncompleteNodes(maps, Target(m.right).value) else [])
    + (if Open(m.left) then [(i, LeftSide)] else [])
    + (if Open(m.right) then [(i, RightSide)] else [])
  }

  /** A map is listed with a side exactly when it lies below the starting map and its stair on
      that side exists but leads to no level yet. */
  lemma {:induction false} IncompleteExactly(maps: seq<Level>, i: nat, k: nat, s: Side)
    requires Forward(maps) && i < |maps|
    ensures (k, s) in IncompleteNodes(maps, i) <==> k < |maps| && Reaches(maps, i, k) && Open(StairOn(maps[k], s))
    decreases |maps| - i
  {
    var m := maps[i];
    if Target(m.left).Some? {
      IncompleteExactly(maps, Target(m.left).value, k, s);
    }
    if Target(m.right).Some? {
      IncompleteExactly(maps, Target(m.right).value, k, s);
    }
  }

  /** The entries for map `i` itself come after everything listed for the levels below it. */
  lemma OwnEntriesLast(maps: seq<Level>, i: nat)
    requires Forward(maps) && i < |maps|
    ensures var r := IncompleteNodes(maps, i);
      forall a, b | 0 <= a < b < |r| && r[a].0 == i :: r[b].0 == i
  {
    var m := maps[i];
    var below := (if Target(m.left).Some? then IncompleteNodes(maps, Target(m.left).value) else [])
      + (if Target(m.right).Some? then IncompleteNodes(maps, Target(m.right).value) else []);
    var r := IncompleteNodes(maps, i);
    assert r[..|below|] == below;
  }

  // ---------------------------------------------------------------- a session

  /** `new_game()`: the first level (`new_map` with `engine.level == 0`), the root node numbered
      by the last entry of the shuffled `order`, the rest of `order` kept for later levels, and
      the player where the generator put it. */
  function NewGame(order: seq<nat>, player: Loc, d: DungeonDraws): (r: Result<Engine>)
    requires order != [] && NoDups(order) && DungeonDrawsWellFormed(d)
    ensures r.Ok? ==> Inv(r.value) && Forward(r.value.maps)
    ensures r.Ok? ==>
      && r.value.level == 0 && |r.value.maps| == 1 && r.value.current == 0 && r.value.totalLevels == 1
      && r.value.maps[0].up.None? && r.value.nodes[r.value.curNode].parent.None?
      && r.value.nodes[r.value.curNode].id == order[|order| - 1] && r.value.pool == order[..|order| - 1]
    ensures r.Err? ==> r.failure.Fault?
  {
    match GenerateDungeon(player, 0, 0, None, d)
    case Err(f) => Err(f)
    case Ok((m, at)) =>
      RootInv(order, m, player, at);
      Ok(Root(order, m, at))
  }

  /** The engine right after `new_game`: one map, one node, level 0. */
  function Root(order: seq<nat>, m: Level, at: Loc): Engine
    requires order != []
  {
    Engine(0, [m], 0, [Node(order[|order| - 1], Some(0), None, None, None)], 0, order[..|order| - 1], at, 1)
  }

  lemma RootInv(order: seq<nat>, m: Level, player: Loc, at: Loc)
    requires order != [] && NoDups(order) && Made(m, 0, player, None)
    ensures Inv(Root(order, m, at)) && Forward(Root(order, m, at).maps)
  {
    var e := Root(order, m, at);
    var ids := Ids(e.nodes) + e.pool;
    assert ids == [order[|order| - 1]] + order[..|order| - 1];
    forall a, b | 0 <= a < b < |ids| ensures ids[a] != ids[b] {
      if a == 0 {
        assert ids[a] == order[|order| - 1] && ids[b] == order[b - 1];
      } else {
        assert ids[a] == order[a - 1] && ids[b] == order[b - 1];
      }
    }
    assert Valid(e);
    assert Linked(e, 0, LeftSide) && Linked(e, 0, RightSide) && HasParent(e, 0);
  }

  /** `down()` from a down stair, together with the `new_map` call it makes when the stair
      leads nowhere yet: the level tree invariant is kept, the player is one level deeper and at
      a child of the node it left, and the only failures are a failed generation or running out
      of node numbers, both for a stair not yet explored. */
  function Descend(e: Engine, d: DungeonDraws): (r: Result<Engine>)
    requires Inv(e) && OnDownStair(e) && DungeonDrawsWellFormed(d)
    ensures r.Ok? ==>
      && Inv(r.value) && r.value.level == e.level + 1
      && r.value.nodes[r.value.curNode].parent == Some(e.curNode)
      && r.value.maps[r.value.current].up.Some?
      && r.value.player == r.value.maps[r.value.current].up.value.loc
    ensures r.Err? <==>
      GetDownMap(e.maps[e.current], e.player).value.target.None? && (NextLevel(e, d).Err? || e.pool == [])
    ensures r.Err? ==> r.failure.Fault?
  {
    assert e.level >= 0 by { assert e.maps[e.current].depth >= 1; }
    var made := NextLevel(e, d);
    DownSucceeds(e, made);
    assert Down(e, made).Ok? ==> Inv(Down(e, made).value) && Down(e, made).value.nodes[Down(e, made).value.curNode].parent == Some(e.curNode) by {
      if Down(e, made).Ok? { DownKeepsInv(e, made); }
    }
    Down(e, made)
  }

  /** The level `new_map` makes for `down()`, one floor below the current one (`engine.level`
      is raised before `new_map` reads it); only the map is kept, since below the first floor
      the generator leaves the player where it was. */
  function NextLevel(e: Engine, d: DungeonDraws): (r: Result<Level>)
    requires e.level >= 0 && DungeonDrawsWellFormed(d)
    ensures r.Ok? ==> Made(r.value, e.level + 1, e.player, Some(e.current))
    ensures r.Ok? ==> FreshFor(e, r.value)
    ensures r.Err? ==> r.failure.Fault?
  {
    match GenerateDungeon(e.player, e.level + 1, e.totalLevels, Some(e.current), d)
    case Err(f) => Err(f)
    case Ok((m, _)) =>
      MadeIsFresh(e, m);
      Ok(m)
  }

  /** A level generated one floor below the current one fits under the player's stair. */
  lemma MadeIsFresh(e: Engine, m: Level)
    requires e.level >= 0 && Made(m, e.level + 1, e.player, Some(e.current))
    ensures FreshFor(e, m)
  {
  }

  /** Going down keeps every stair leading to a later map. */
  lemma DownKeepsForward(e: Engine, made: Result<Level>)
    requires Inv(e) && OnDownStair(e) && Forward(e.maps)
    requires made.Ok? ==> FreshFor(e, made.value)
    ensures Down(e, made).Ok? ==> Forward(Down(e, made).value.maps)
  {
    if Down(e, made).Ok? && GetDownMap(e.maps[e.current], e.player).value.target.None? {
      SlotUnderPlayer(e);
      var slot := DownSide(e.maps[e.current], e.player);
      var maps' := Down(e, made).value.maps;
      assert maps' == e.maps[e.current := WithTarget(e.maps[e.current], slot, |e.maps|)] + [made.value];
      forall i | 0 <= i < |maps'|
        ensures LeadsForward(maps'[i].left, i, |maps'|) && LeadsForward(maps'[i].right, i, |maps'|)
      {
        if i < |e.maps| && i != e.current {
          assert maps'[i] == e.maps[i];
        }
      }
    }
  }

  /** A session started by `new_game` and moved only by `down()` (with `new_map`) and `up()`
      keeps every stair leading to a later map. */
  lemma DescendKeepsForward(e: Engine, d: DungeonDraws)
    requires Inv(e) && Forward(e.maps) && OnDownStair(e) && DungeonDrawsWellFormed(d)
    ensures Descend(e, d).Ok? ==> Forward(Descend(e, d).value.maps)
  {
    assert e.maps[e.current].depth >= 1;
    DownKeepsForward(e, NextLevel(e, d));
  }

  lemma UpKeepsForward(e: Engine)
    requires Inv(e) && Forward(e.maps)
    ensures Up(e).Ok? ==> Inv(Up(e).value) && Forward(Up(e).value.maps)
  {
    if Up(e).Ok? {
      UpKeepsInv(e);
    }
  }

  /** A fresh session lists its first level once per down stair, every one of them open. */
  lemma NewGameAllIncomplete(order: seq<nat>, player: Loc, d: DungeonDraws, s: Side)
    requires order != [] && NoDups(order) && DungeonDrawsWellFormed(d)
    ensures var r := NewGame(order, player, d);
      r.Ok? ==> ((0, s) in IncompleteNodes(r.value.maps, 0) <==> StairOn(r.value.maps[0], s).Some?)
  {
    var r := NewGame(order, player, d);
    if r.Ok? {
      IncompleteExactly(r.value.maps, 0, 0, s);
    }
  }
}
