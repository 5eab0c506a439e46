/** The level tree of `Engine` (engine.py): maps linked by their stairs, the `binarytree` nodes
    that mirror them, and the player moving down and up between them. */
module LevelTree {
  import opened Common
  import opened Grid
  import opened GameMap
  import opened Dungeon

  /** A `binarytree.Node`: its number (`value`), the map it stands for (`game_map`), its parent
      and its two children, the last three as indices into the engine's list of nodes. */
  datatype Node = Node(id: nat, mapIx: Option<nat>, parent: Option<nat>, left: Option<nat>, right: Option<nat>)

  /** The part of `Engine` the level tree touches. Every map made so far is kept in `maps`, and a
      stair names the map it leads to by its index there. `current` is `game_map`, `curNode` is
      `cur_node`, `pool` is `node_nums` and `player` is where the player stands. */
  datatype Engine = Engine(level: int, maps: seq<Level>, current: nat, nodes: seq<Node>, curNode: nat,
                           pool: seq<nat>, player: Loc, totalLevels: int)

  function StairOn(m: Level, s: Side): Option<Stairs>
  {
    if s == LeftSide then m.left else m.right
  }

  function Child(n: Node, s: Side): Option<nat>
  {
    if s == LeftSide then n.left else n.right
  }

  function Other(s: Side): Side
  {
    if s == LeftSide then RightSide else LeftSide
  }

  /** `setattr(node, side, child)`. */
  function WithChild(n: Node, s: Side, c: nat): (r: Node)
    ensures Child(r, s) == Some(c) && Child(r, Other(s)) == Child(n, Other(s))
    ensures r.id == n.id && r.mapIx == n.mapIx && r.parent == n.parent
  {
    if s == LeftSide then n.(left := Some(c)) else n.(right := Some(c))
  }

  /** `st.game_map = j` on the stair stored under side `s`. */
  function WithTarget(m: Level, s: Side, j: nat): (r: Level)
    requires StairOn(m, s).Some?
    ensures StairOn(r, s) == Some(StairOn(m, s).value.(target := Some(j)))
    ensures StairOn(r, Other(s)) == StairOn(m, Other(s))
    ensures r == m.(left := r.left, right := r.right)
  {
    if s == LeftSide then m.(left := Some(m.left.value.(target := Some(j))))
    else m.(right := Some(m.right.value.(target := Some(j))))
  }

  /** The side `get_down_map` reads: the left stair when the player is on it, else the right. */
  function DownSide(m: Level, l: Loc): (s: Side)
    ensures StairOn(m, s) == GetDownMap(m, l)
  {
    if m.left.Some? && LocEq(l, Some(m.left.value.loc)) then LeftSide else RightSide
  }

  // ---------------------------------------------------------------- well-formedness

  predicate TargetBelow(st: Option<Stairs>, k: nat)
  {
    st.Some? && st.value.target.Some? ==> st.value.target.value < k
  }

  /** Every stair of `m` leads to one of the first `k` maps. */
  predicate TargetsBelow(m: Level, k: nat)
  {
    TargetBelow(m.up, k) && TargetBelow(m.left, k) && TargetBelow(m.right, k)
  }

  predicate Below(o: Option<nat>, k: nat)
  {
    o.Some? ==> o.value < k
  }

  /** Every index held by the engine points into its lists. */
  predicate Valid(e: Engine)
  {
    && e.current < |e.maps| && e.curNode < |e.nodes|
    && (forall i | 0 <= i < |e.maps| :: TargetsBelow(e.maps[i], |e.maps|))
    && (forall n | 0 <= n < |e.nodes| ::
          && e.nodes[n].mapIx.Some? && e.nodes[n].mapIx.value < |e.maps|
          && Below(e.nodes[n].parent, |e.nodes|) && Below(e.nodes[n].left, |e.nodes|)
          && Below(e.nodes[n].right, |e.nodes|))
  }

  function Ids(ns: seq<Node>): (r: seq<nat>)
    ensures |r| == |ns| && forall i | 0 <= i < |ns| :: r[i] == ns[i].id
  {
    if ns == [] then [] else [ns[0].id] + Ids(ns[1..])
  }

  predicate NoDups(s: seq<nat>)
  {
    forall i, j | 0 <= i < j < |s| :: s[i] != s[j]
  }

  /** The stair of node `n` on side `s` and the node's child on that side agree: a child exists
      exactly when the stair leads somewhere, the child's map is the one the stair leads to, the
      child's parent is `n`, and the child's up stair leads back to `n`'s map, remembers the
      down stair's cell and is one level deeper. */
  ghost predicate Linked(e: Engine, n: nat, s: Side)
    requires Valid(e) && n < |e.nodes|
  {
    var m := e.maps[e.nodes[n].mapIx.value];
    match Child(e.nodes[n], s)
    case None => StairOn(m, s).None? || StairOn(m, s).value.target.None?
    case Some(c) =>
      && StairOn(m, s).Some? && StairOn(m, s).value.target == e.nodes[c].mapIx
      && e.nodes[c].parent == Some(n)
      && var below := e.maps[e.nodes[c].mapIx.value];
         && below.up.Some? && below.up.value.aboveLoc == Some(StairOn(m, s).value.loc)
         && below.up.value.target == e.nodes[n].mapIx
  }

  /** A node with a parent is one of the parent's children. */
  ghost predicate HasParent(e: Engine, n: nat)
    requires Valid(e) && n < |e.nodes|
  {
    e.nodes[n].parent.Some? ==>
      var p := e.nodes[n].parent.value;
      Child(e.nodes[p], LeftSide) == Some(n) || Child(e.nodes[p], RightSide) == Some(n)
  }

  /** What moving up and down keeps. */
  ghost predicate Inv(e: Engine)
  {
    && Valid(e)
    && e.nodes[e.curNode].mapIx == Some(e.current)
    && e.maps[e.current].depth == e.level + 1
    && (forall i | 0 <= i < |e.maps| :: Sided(e.maps[i]) && e.maps[i].depth >= 1)
    && (forall a, b | 0 <= a < b < |e.nodes| :: e.nodes[a].mapIx != e.nodes[b].mapIx)
    && NoDups(Ids(e.nodes) + e.pool)
    && (forall n | 0 <= n < |e.nodes| :: Linked(e, n, LeftSide) && Linked(e, n, RightSide) && HasParent(e, n))
    && (forall n, s | 0 <= n < |e.nodes| && Child(e.nodes[n], s).Some? ::
          e.maps[e.nodes[Child(e.nodes[n], s).value].mapIx.value].depth == e.maps[e.nodes[n].mapIx.value].depth + 1)
  }

  // ---------------------------------------------------------------- down and up

  /** `Engine.down()`. `made` is what `new_map` returns for this descent; it is used only when
      the stair does not lead to a map yet. */
  function Down(e: Engine, made: Result<Level>): (r: Result<Engine>)
    requires Valid(e)
    ensures r.Ok? ==> r.value.level == e.level + 1
    ensures r.Ok? ==>
      && r.value.current < |r.value.maps| && r.value.maps[r.value.current].up.Some?
      && r.value.player == r.value.maps[r.value.current].up.value.loc
    ensures r.Ok? ==> GetDownMap(e.maps[e.current], e.player).Some?
    ensures r.Ok? && GetDownMap(e.maps[e.current], e.player).value.target.Some? ==>
      && r.value.current == GetDownMap(e.maps[e.current], e.player).value.target.value
      && r.value.maps == e.maps && r.value.pool == e.pool && r.value.totalLevels == e.totalLevels
    ensures r.Ok? && GetDownMap(e.maps[e.current], e.player).value.target.None? ==>
      && made.Ok? && e.pool != []
      && |r.value.maps| == |e.maps| + 1 && r.value.current == |e.maps| && r.value.maps[|e.maps|] == made.value
      && |r.value.nodes| == |e.nodes| + 1 && r.value.curNode == |e.nodes|
      && r.value.nodes[|e.nodes|].id == e.pool[|e.pool| - 1] && r.value.nodes[|e.nodes|].parent == Some(e.curNode)
      && r.value.pool == e.pool[..|e.pool| - 1] && r.value.totalLevels == e.totalLevels + 1
    ensures r.Err? ==> r.failure.Fault? || made == Err(r.failure)
  {
    var level := e.level + 1;
    var m := e.maps[e.current];
    var slot := DownSide(m, e.player);
    match StairOn(m, slot)
    case None => Err(Fault("'NoneType' object has no attribute 'game_map'"))
    case Some(st) =>
      match st.target
      case Some(j) =>
        if st.downDir.None? then Err(Fault("attribute name must be string"))
        else
          (match Child(e.nodes[e.curNode], st.downDir.value)
           case None => Err(Fault("'NoneType' object has no attribute 'game_map'"))
           case Some(c) =>
             var below := e.maps[j];
             if below.up.None? then Err(Fault("'NoneType' object has no attribute 'loc'"))
             else Ok(e.(level := level, current := j, curNode := c, player := below.up.value.loc,
                        nodes := e.nodes[c := e.nodes[c].(mapIx := Some(j))])))
      case None =>
        match made
        case Err(f) => Err(f)
        case Ok(below) =>
          if e.pool == [] then Err(Fault("pop from empty list"))
          else if st.downDir.None? then Err(Fault("attribute name must be string"))
          else if below.up.None? then Err(Fault("'NoneType' object has no attribute 'loc'"))
          else Ok(Grown(e, below, slot, st.downDir.value))
  }

  /** The first descent through the stair on side `slot`: the new map is appended and the stair
      leads to it, a node numbered by the last entry of the pool becomes the current node's child
      on side `dir`, and the player stands on the new map's up stair. */
  function Grown(e: Engine, below: Level, slot: Side, dir: Side): (r: Engine)
    requires Valid(e) && e.pool != [] && below.up.Some?
    requires StairOn(e.maps[e.current], slot).Some?
  {
    var j, c := |e.maps|, |e.nodes|;
    var node := Node(e.pool[|e.pool| - 1], Some(j), Some(e.curNode), None, None);
    Engine(e.level + 1, e.maps[e.current := WithTarget(e.maps[e.current], slot, j)] + [below], j,
           e.nodes[e.curNode := WithChild(e.nodes[e.curNode], dir, c)] + [node], c,
           e.pool[..|e.pool| - 1], below.up.value.loc, e.totalLevels + 1)
  }

  /** `Engine.up()`: back to the map the up stair leads to, onto the cell the player left it
      from, and to the parent node. A missing up stair raises; so does a missing parent, when
      `show_tree` reads the node's number. */
  function Up(e: Engine): (r: Result<Engine>)
    requires Valid(e)
    ensures r.Ok? <==>
      && e.maps[e.current].up.Some? && e.maps[e.current].up.value.target.Some?
      && e.maps[e.current].up.value.aboveLoc.Some? && e.nodes[e.curNode].parent.Some?
    ensures r.Ok? ==>
      && r.value.level == e.level - 1
      && Some(r.value.current) == e.maps[e.current].up.value.target
      && Some(r.value.player) == e.maps[e.current].up.value.aboveLoc
      && Some(r.value.curNode) == e.nodes[e.curNode].parent
      && r.value.maps == e.maps && r.value.nodes == e.nodes && r.value.pool == e.pool
      && r.value.totalLevels == e.totalLevels
      && Valid(r.value)
    ensures r.Err? ==> r.failure.Fault?
  {
    match e.maps[e.current].up
    case None => Err(Fault("'NoneType' object has no attribute 'game_map'"))
    case Some(up) =>
      // An up stair missing its map or the player's cell is a state generation never builds
      // (`create_stairs` sets both); the source would go on with `None` there, and this
      // failure only stands in for that state.
      if up.target.None? || up.aboveLoc.None? then Err(Fault("'NoneType' object has no attribute 'loc'"))
      else
        match e.nodes[e.curNode].parent
        case None => Err(Fault("'NoneType' object has no attribute 'value'"))
        case Some(p) =>
          Ok(e.(level := e.level - 1, current := up.target.value, player := up.aboveLoc.value, curNode := p))
  }

  /** The input handler calls `down()` only with the player on a down stair and `up()` only with
      the player on the up stair. */
  predicate OnDownStair(e: Engine)
    requires e.current < |e.maps|
  {
    var m := e.maps[e.current];
    (m.left.Some? && m.left.value.loc == e.player) || (m.right.Some? && m.right.value.loc == e.player)
  }

  predicate OnUpStair(e: Engine)
    requires e.current < |e.maps|
  {
    e.maps[e.current].up.Some? && e.maps[e.current].up.value.loc == e.player
  }

  /** What `new_map` must hand `down()`: a level one deeper whose up stair leads back to the
      current map and remembers where the player stands, with sided, unexplored down stairs. */
  predicate FreshFor(e: Engine, m: Level)
  {
    && m.up.Some? && m.up.value.aboveLoc == Some(e.player) && m.up.value.target == Some(e.current)
    && Sided(m) && Unexplored(m) && m.depth == e.level + 2
  }

  // ---------------------------------------------------------------- the tree is kept

  /** The links depend only on the maps and the nodes. */
  lemma SameTree(e: Engine, e': Engine)
    requires Valid(e) && e'.maps == e.maps && e'.nodes == e.nodes
    requires e'.current < |e'.maps| && e'.curNode < |e'.nodes|
    ensures Valid(e')
    ensures forall n, s | 0 <= n < |e.nodes| :: Linked(e', n, s) == Linked(e, n, s)
    ensures forall n | 0 <= n < |e.nodes| :: HasParent(e', n) == HasParent(e, n)
  {
  }

  /** Going up keeps the level tree well formed. */
  lemma UpKeepsInv(e: Engine)
    requires Inv(e) && Up(e).Ok?
    ensures Inv(Up(e).value)
  {
    var e' := Up(e).value;
    SameTree(e, e');
    var p := e.nodes[e.curNode].parent.value;
    assert HasParent(e, e.curNode);
    var s :| Child(e.nodes[p], s) == Some(e.curNode);
    assert Linked(e, p, s);
  }

  /** A stair the player stands on is the one `get_down_map` picks. */
  lemma SlotUnderPlayer(e: Engine)
    requires Inv(e) && OnDownStair(e)
    ensures StairOn(e.maps[e.current], DownSide(e.maps[e.current], e.player)).Some?
    ensures StairOn(e.maps[e.current], DownSide(e.maps[e.current], e.player)).value.loc == e.player
    ensures StairOn(e.maps[e.current], DownSide(e.maps[e.current], e.player)).value.downDir
            == Some(DownSide(e.maps[e.current], e.player))
  {
    assert Sided(e.maps[e.current]);
  }

  /** Going down a stair whose map exists keeps the level tree well formed. */
  lemma DownCachedKeepsInv(e: Engine, made: Result<Level>)
    requires Inv(e) && OnDownStair(e) && Down(e, made).Ok?
    requires GetDownMap(e.maps[e.current], e.player).value.target.Some?
    ensures Inv(Down(e, made).value)
    ensures Down(e, made).value.nodes == e.nodes
    ensures Down(e, made).value.nodes[Down(e, made).value.curNode].parent == Some(e.curNode)
  {
    var m := e.maps[e.current];
    var slot := DownSide(m, e.player);
    SlotUnderPlayer(e);
    assert Linked(e, e.curNode, slot);
    var c := Child(e.nodes[e.curNode], slot).value;
    var e' := Down(e, made).value;
    assert e'.nodes == e.nodes by {
      assert e.nodes[c].mapIx == Some(e'.current);
      assert e.nodes[c := e.nodes[c].(mapIx := Some(e'.current))] == e.nodes;
    }
    SameTree(e, e');
  }

  // ---------------------------------------------------------------- round trips

  /** Up and then down the same stair gives back exactly the engine started from. */
  lemma DownAfterUp(e: Engine, made: Result<Level>)
    requires Inv(e) && OnUpStair(e) && e.nodes[e.curNode].parent.Some?
    ensures Up(e).Ok?
    ensures Down(Up(e).value, made) == Ok(e)
  {
    var p := e.nodes[e.curNode].parent.value;
    assert HasParent(e, e.curNode);
    var s :| Child(e.nodes[p], s) == Some(e.curNode);
    ParentStair(e, p, s);
    CachedDown(Up(e).value, made, s, e.curNode);
    assert e.nodes[e.curNode := e.nodes[e.curNode].(mapIx := Some(e.current))] == e.nodes;
  }

  /** Going up lands on the parent's map, on the down stair on the side of the node left. */
  lemma ParentStair(e: Engine, p: nat, s: Side)
    requires Inv(e) && OnUpStair(e) && e.nodes[e.curNode].parent == Some(p)
    requires Child(e.nodes[p], s) == Some(e.curNode)
    ensures Up(e).Ok?
    ensures var e1 := Up(e).value; var pm := e.maps[e.nodes[p].mapIx.value];
      && Valid(e1) && e1.current == e.nodes[p].mapIx.value && e1.curNode == p
      && e1.level == e.level - 1 && e1.maps == e.maps && e1.nodes == e.nodes && e1.pool == e.pool
      && e1.totalLevels == e.totalLevels
      && DownSide(pm, e1.player) == s && StairOn(pm, s).Some? && StairOn(pm, s).value.downDir == Some(s)
      && StairOn(pm, s).value.target == Some(e.current)
      && e.maps[e.current].up.Some? && e.maps[e.current].up.value.loc == e.player
  {
    assert Linked(e, p, s);
    var e1 := Up(e).value;
    var pm := e.maps[e.nodes[p].mapIx.value];
    assert Sided(pm);
    assert DownSide(pm, e1.player) == s;
  }

  /** `down()` through a stair whose level exists already moves to that level and to the child
      node on the stair's side. */
  lemma CachedDown(e: Engine, made: Result<Level>, s: Side, c: nat)
    requires Valid(e) && DownSide(e.maps[e.current], e.player) == s
    requires StairOn(e.maps[e.current], s).Some? && StairOn(e.maps[e.current], s).value.downDir == Some(s)
    requires StairOn(e.maps[e.current], s).value.target.Some?
    requires Child(e.nodes[e.curNode], s) == Some(c)
    requires e.maps[StairOn(e.maps[e.current], s).value.target.value].up.Some?
    ensures var j := StairOn(e.maps[e.current], s).value.target.value;
      Down(e, made) == Ok(e.(level := e.level + 1, current := j, curNode := c, player := e.maps[j].up.value.loc,
                             nodes := e.nodes[c := e.nodes[c].(mapIx := Some(j))]))
  {
  }

  /** The ids in a list that has one more entry at the end. */
  lemma IdsAppend(ns: seq<Node>, n: Node)
    ensures Ids(ns + [n]) == Ids(ns) + [n.id]
  {
  }

  /** Moving the last entry of the pool to the end of the node ids keeps them all distinct. */
  lemma NoDupsMoveLast(a: seq<nat>, b: seq<nat>)
    requires b != [] && NoDups(a + b)
    ensures NoDups(a + [b[|b| - 1]] + b[..|b| - 1])
  {
    var x := b[|b| - 1];
    var t := a + [x] + b[..|b| - 1];
    var u := a + b;
    // position k of t holds position f(k) of u, and f is one-to-one
    forall i, j | 0 <= i < j < |t| ensures t[i] != t[j] {
      var fi := if i < |a| then i else if i == |a| then |u| - 1 else i - 1;
      var fj := if j < |a| then j else if j == |a| then |u| - 1 else j - 1;
      assert t[i] == u[fi] && t[j] == u[fj];
    }
  }

  /** The first descent through a stair keeps the level tree well formed. */
  lemma DownFreshKeepsInv(e: Engine, made: Result<Level>)
    requires Inv(e) && OnDownStair(e) && Down(e, made).Ok?
    requires GetDownMap(e.maps[e.current], e.player).value.target.None?
    requires made.Ok? ==> FreshFor(e, made.value)
    ensures Inv(Down(e, made).value)
    ensures Down(e, made).value.nodes[Down(e, made).value.curNode].parent == Some(e.curNode)
  {
    var m := e.maps[e.current];
    var slot := DownSide(m, e.player);
    SlotUnderPlayer(e);
    var below := made.value;
    var e' := Grown(e, below, slot, slot);
    assert Down(e, made) == Ok(e');
    assert Linked(e, e.curNode, slot);
    assert Child(e.nodes[e.curNode], slot).None?;
    GrownValid(e, below, slot);
    GrownIds(e, below, slot);
    GrownLinked(e, below, slot);
  }

  lemma GrownValid(e: Engine, below: Level, slot: Side)
    requires Valid(e) && e.pool != [] && FreshFor(e, below)
    requires StairOn(e.maps[e.current], slot).Some?
    ensures Valid(Grown(e, below, slot, slot))
  {
    var e' := Grown(e, below, slot, slot);
    forall i | 0 <= i < |e'.maps| ensures TargetsBelow(e'.maps[i], |e'.maps|) {
      if i < |e.maps| && i != e.current { assert TargetsBelow(e.maps[i], |e.maps|); }
    }
  }

  lemma GrownIds(e: Engine, below: Level, slot: Side)
    requires Valid(e) && e.pool != [] && FreshFor(e, below) && NoDups(Ids(e.nodes) + e.pool)
    requires StairOn(e.maps[e.current], slot).Some?
    ensures NoDups(Ids(Grown(e, below, slot, slot).nodes) + Grown(e, below, slot, slot).pool)
  {
    var e' := Grown(e, below, slot, slot);
    var ns := e.nodes[e.curNode := WithChild(e.nodes[e.curNode], slot, |e.nodes|)];
    assert Ids(ns) == Ids(e.nodes);
    IdsAppend(ns, e'.nodes[|e.nodes|]);
    assert e'.nodes == ns + [e'.nodes[|e.nodes|]];
    NoDupsMoveLast(Ids(e.nodes), e.pool);
  }

  /** The premises of the first descent that the pieces of the proof share. */
  ghost predicate GrowsFrom(e: Engine, below: Level, slot: Side)
  {
    && Inv(e) && e.pool != [] && FreshFor(e, below)
    && StairOn(e.maps[e.current], slot).Some? && StairOn(e.maps[e.current], slot).value.target.None?
    && StairOn(e.maps[e.current], slot).value.loc == e.player
    && Child(e.nodes[e.curNode], slot).None?
    && Valid(Grown(e, below, slot, slot))
  }

  lemma GrownLinked(e: Engine, below: Level, slot: Side)
    requires Inv(e) && e.pool != [] && FreshFor(e, below)
    requires StairOn(e.maps[e.current], slot).Some? && StairOn(e.maps[e.current], slot).value.target.None?
    requires StairOn(e.maps[e.current], slot).value.loc == e.player
    requires Child(e.nodes[e.curNode], slot).None?
    requires Valid(Grown(e, below, slot, slot)) && NoDups(Ids(Grown(e, below, slot, slot).nodes) + Grown(e, below, slot, slot).pool)
    ensures Inv(Grown(e, below, slot, slot))
  {
    var e' := Grown(e, below, slot, slot);
    assert GrowsFrom(e, below, slot);
    forall n | 0 <= n < |e'.nodes| ensures Linked(e', n, LeftSide) && Linked(e', n, RightSide) && HasParent(e', n) {
      GrownLinkedAt(e, below, slot, n, LeftSide);
      GrownLinkedAt(e, below, slot, n, RightSide);
      GrownHasParent(e, below, slot, n);
    }
    GrownShape(e, below, slot);
  }

  lemma GrownLinkedAt(e: Engine, below: Level, slot: Side, n: nat, s: Side)
    requires GrowsFrom(e, below, slot) && n < |Grown(e, below, slot, slot).nodes|
    ensures Linked(Grown(e, below, slot, slot), n, s)
  {
    var e' := Grown(e, below, slot, slot);
    if n == |e.nodes| {
    } else if n == e.curNode {
      assert Linked(e, n, s);
      if Child(e.nodes[n], s).Some? {
        var c := Child(e.nodes[n], s).value;
        assert e'.maps[e.nodes[c].mapIx.value].up == e.maps[e.nodes[c].mapIx.value].up;
      }
    } else {
      assert Linked(e, n, s);
      assert e.nodes[n].mapIx != e.nodes[e.curNode].mapIx;
      assert e'.nodes[n] == e.nodes[n];
      assert e'.maps[e.nodes[n].mapIx.value] == e.maps[e.nodes[n].mapIx.value];
      if Child(e.nodes[n], s).Some? {
        var c := Child(e.nodes[n], s).value;
        assert e'.maps[e.nodes[c].mapIx.value].up == e.maps[e.nodes[c].mapIx.value].up;
        assert e'.nodes[c].mapIx == e.nodes[c].mapIx && e'.nodes[c].parent == e.nodes[c].parent;
      }
    }
  }

  lemma GrownHasParent(e: Engine, below: Level, slot: Side, n: nat)
    requires GrowsFrom(e, below, slot) && n < |Grown(e, below, slot, slot).nodes|
    ensures HasParent(Grown(e, below, slot, slot), n)
  {
    var e' := Grown(e, below, slot, slot);
    if n < |e.nodes| {
      assert HasParent(e, n);
      assert e'.nodes[n].parent == e.nodes[n].parent;
      if e.nodes[n].parent.Some? {
        var p := e.nodes[n].parent.value;
        assert Child(e.nodes[p], slot) == Some(n) ==> p != e.curNode;
        assert p != e.curNode ==> e'.nodes[p] == e.nodes[p];
      }
    }
  }

  lemma GrownShape(e: Engine, below: Level, slot: Side)
    requires GrowsFrom(e, below, slot)
    ensures var e' := Grown(e, below, slot, slot);
      && e'.nodes[e'.curNode].mapIx == Some(e'.current)
      && e'.maps[e'.current].depth == e'.level + 1
      && (forall i | 0 <= i < |e'.maps| :: Sided(e'.maps[i]) && e'.maps[i].depth >= 1)
      && (forall a, b | 0 <= a < b < |e'.nodes| :: e'.nodes[a].mapIx != e'.nodes[b].mapIx)
      && (forall n, s | 0 <= n < |e'.nodes| && Child(e'.nodes[n], s).Some? ::
            e'.maps[e'.nodes[Child(e'.nodes[n], s).value].mapIx.value].depth == e'.maps[e'.nodes[n].mapIx.value].depth + 1)
  {
    GrownSided(e, below, slot);
    GrownDistinct(e, below, slot);
    GrownDepths(e, below, slot);
  }

  lemma GrownSided(e: Engine, below: Level, slot: Side)
    requires GrowsFrom(e, below, slot)
    ensures var e' := Grown(e, below, slot, slot);
      forall i | 0 <= i < |e'.maps| :: Sided(e'.maps[i]) && e'.maps[i].depth >= 1
  {
    var e' := Grown(e, below, slot, slot);
    forall i | 0 <= i < |e'.maps| ensures Sided(e'.maps[i]) && e'.maps[i].depth >= 1 {
      if i < |e.maps| { assert Sided(e.maps[i]); }
    }
  }

  lemma GrownDistinct(e: Engine, below: Level, slot: Side)
    requires GrowsFrom(e, below, slot)
    ensures var e' := Grown(e, below, slot, slot);
      forall a, b | 0 <= a < b < |e'.nodes| :: e'.nodes[a].mapIx != e'.nodes[b].mapIx
  {
    var e' := Grown(e, below, slot, slot);
    forall a, b | 0 <= a < b < |e'.nodes| ensures e'.nodes[a].mapIx != e'.nodes[b].mapIx {
      if b < |e.nodes| {
        assert e.nodes[a].mapIx != e.nodes[b].mapIx;
      }
    }
  }

  lemma GrownDepths(e: Engine, below: Level, slot: Side)
    requires GrowsFrom(e, below, slot)
    ensures var e' := Grown(e, below, slot, slot);
      forall n, s | 0 <= n < |e'.nodes| && Child(e'.nodes[n], s).Some? ::
        e'.maps[e'.nodes[Child(e'.nodes[n], s).value].mapIx.value].depth == e'.maps[e'.nodes[n].mapIx.value].depth + 1
  {
    var e' := Grown(e, below, slot, slot);
    forall n, s | 0 <= n < |e'.nodes| && Child(e'.nodes[n], s).Some?
      ensures e'.maps[e'.nodes[Child(e'.nodes[n], s).value].mapIx.value].depth == e'.maps[e'.nodes[n].mapIx.value].depth + 1
    {
      if n < |e.nodes| && (n != e.curNode || s != slot) {
        assert Child(e'.nodes[n], s) == Child(e.nodes[n], s);
      }
    }
  }

  /** Going down keeps the level tree well formed, whichever branch `down()` takes, and the new
      current node is a child of the old one. */
  lemma DownKeepsInv(e: Engine, made: Result<Level>)
    requires Inv(e) && OnDownStair(e) && Down(e, made).Ok?
    requires made.Ok? ==> FreshFor(e, made.value)
    ensures Inv(Down(e, made).value)
    ensures Down(e, made).value.nodes[Down(e, made).value.curNode].parent == Some(e.curNode)
  {
    if GetDownMap(e.maps[e.current], e.player).value.target.Some? {
      DownCachedKeepsInv(e, made);
    } else {
      DownFreshKeepsInv(e, made);
    }
  }

  /** Down a stair and back up again: the player is on the cell it went down from, on the same
      map, at the same node and level. */
  lemma UpAfterDown(e: Engine, made: Result<Level>)
    requires Inv(e) && OnDownStair(e) && Down(e, made).Ok?
    requires made.Ok? ==> FreshFor(e, made.value)
    ensures LeadsBack(e, Down(e, made).value)
    ensures Up(Down(e, made).value).Ok?
    ensures var back := Up(Down(e, made).value).value;
      back.player == e.player && back.current == e.current && back.curNode == e.curNode && back.level == e.level
  {
    if GetDownMap(e.maps[e.current], e.player).value.target.Some? {
      CachedDownLeadsBack(e, made);
    } else {
      FreshDownLeadsBack(e, made);
    }
    UpReturns(e, Down(e, made).value);
  }

  /** What `up()` needs to undo a descent from `e` to `e'`. */
  ghost predicate LeadsBack(e: Engine, e': Engine)
  {
    && Valid(e') && e'.level == e.level + 1
    && e'.maps[e'.current].up.Some?
    && e'.maps[e'.current].up.value.target == Some(e.current)
    && e'.maps[e'.current].up.value.aboveLoc == Some(e.player)
    && e'.nodes[e'.curNode].parent == Some(e.curNode)
  }

  lemma UpReturns(e: Engine, e': Engine)
    requires LeadsBack(e, e')
    ensures Up(e').Ok?
    ensures var back := Up(e').value;
      back.player == e.player && back.current == e.current && back.curNode == e.curNode && back.level == e.level
  {
  }

  lemma CachedDownLeadsBack(e: Engine, made: Result<Level>)
    requires Inv(e) && OnDownStair(e) && Down(e, made).Ok?
    requires GetDownMap(e.maps[e.current], e.player).value.target.Some?
    ensures LeadsBack(e, Down(e, made).value)
  {
    var e' := Down(e, made).value;
    SlotUnderPlayer(e);
    var slot := DownSide(e.maps[e.current], e.player);
    assert Linked(e, e.curNode, slot);
    var c := Child(e.nodes[e.curNode], slot).value;
    assert e.nodes[c].mapIx == Some(e'.current);
    assert e'.nodes == e.nodes by {
      assert e.nodes[c := e.nodes[c].(mapIx := Some(e'.current))] == e.nodes;
    }
    SameTree(e, e');
  }

  lemma FreshDownLeadsBack(e: Engine, made: Result<Level>)
    requires Inv(e) && OnDownStair(e) && Down(e, made).Ok?
    requires GetDownMap(e.maps[e.current], e.player).value.target.None?
    requires made.Ok? ==> FreshFor(e, made.value)
    ensures LeadsBack(e, Down(e, made).value)
  {
    SlotUnderPlayer(e);
    var slot := DownSide(e.maps[e.current], e.player);
    var e' := Down(e, made).value;
    assert e' == Grown(e, made.value, slot, slot);
    GrownValid(e, made.value, slot);
  }

  /** `down()` from a down stair fails only when a new map is needed and either `new_map`
      failed or the node numbers have run out. */
  lemma DownSucceeds(e: Engine, made: Result<Level>)
    requires Inv(e) && OnDownStair(e)
    requires made.Ok? ==> FreshFor(e, made.value)
    ensures Down(e, made).Err? <==>
      GetDownMap(e.maps[e.current], e.player).value.target.None? && (made.Err? || e.pool == [])
  {
    SlotUnderPlayer(e);
    var slot := DownSide(e.maps[e.current], e.player);
    assert Linked(e, e.curNode, slot);
  }
}
