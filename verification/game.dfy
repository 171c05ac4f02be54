/**
 * The simulation engine of Game/Game.c: bots walking to the base over the
 * packed tile map, towers the player builds with gold, a three-tier movement
 * policy (a greedy axis step, a bounded wave-propagation search with
 * backtracking, relocation of a stuck bot) and the byte-driven input decoder.
 *
 * The C globals become the fields of one Engine object; the fixed-capacity
 * arrays keep their capacities and are filled up to their current counts.
 * Map repaints (GameRenderTilePosition) are recorded in the ghost log
 * `redraws`; all other rendering is left out.
 */
module Game {
  import opened Size
  import opened Point
  import opened Wrappers
  import opened Tiles
  import opened GameDefs
  import Terminal

  const BasePosition: Point := Point(51, 31)

  /** levels[].HealthPoints, one level. */
  const LevelHealthPoints: seq<U8> := [10]

  const EntryPoints: seq<Point> :=
    [Point(23, 0), Point(107, 0), Point(0, 15), Point(0, 22),
     Point(24, 47), Point(109, 47), Point(120, 41), Point(120, 31)]

  const VISITED_POINTS_COUNT: nat := 120

  /**
   * Bytes of program memory from the map table on that the engine may read:
   * the cursor can stand on (MAP_WIDTH, MAP_HEIGHT), one past the map in both
   * axes, and GameNewTower looks up the tile under it.
   */
  const MAP_MEMORY: nat := 1483

  /** The status message GameNewTower renders. */
  datatype BuildStatus = TowerBuilt | TowerNotBuilt | TowerLimitExceeded | MoreGoldRequired

  /** What GameParseInput shows on the status line for one byte. */
  datatype Feedback = NoFeedback | BuildFeedback(status: BuildStatus) | InspectFeedback(healthPoints: U8)

  /** GameTowerAttackDamage: 2, 5 and 9 for levels 1 to 3, nothing otherwise. */
  function TowerAttackDamage(t: Tower): (damage: U8)
    ensures damage > 0 <==> 1 <= t.Level <= 3
    ensures damage in {0, 2, 5, 9}
  {
    match t.Level
    case 1 => 2
    case 2 => 5
    case 3 => 9
    case _ => 0
  }

  /** A higher level never does less damage. */
  lemma DamageGrowsWithLevel(t: Tower, u: Tower)
    requires 1 <= t.Level < u.Level <= 3
    ensures TowerAttackDamage(t) < TowerAttackDamage(u)
  {
  }

  /** The hit points left after an attack: never below zero. */
  function AfterAttack(hp: U8, damage: U8): (r: U8)
    ensures r <= hp && (r == 0 <==> hp <= damage) && (r > 0 ==> r == hp - damage)
  {
    if hp - damage < 0 then 0 else hp - damage
  }

  /** GameAbs on the 16-bit coordinate differences. */
  function Abs(v: int): (r: nat)
    ensures r == v || r == -v
  {
    if v < 0 then -v else v
  }

  /** Grid distance to the base along the two axes. */
  function Manhattan(p: Point, q: Point): nat
  {
    Abs(p.X - q.X) + Abs(p.Y - q.Y)
  }

  predicate Horizontal(d: Direction)
  {
    d == East || d == West
  }

  /**
   * The two directions GameSimpleMove tries, in order: along the axis with
   * the larger distance to the base first (Y on a tie), each toward the base
   * (West when right of it, else East; North when below it, else South).
   */
  function SimpleMoveDirections(p: Point): (r: (Direction, Direction))
    ensures Horizontal(r.0) <==> Abs(p.X - BasePosition.X) > Abs(p.Y - BasePosition.Y)
    ensures Horizontal(r.0) != Horizontal(r.1)
    ensures (r.0 == West || r.1 == West) <==> p.X > BasePosition.X
    ensures (r.0 == North || r.1 == North) <==> p.Y > BasePosition.Y
  {
    var dx := p.X - BasePosition.X;
    var dy := p.Y - BasePosition.Y;
    var horizontal := if dx > 0 then West else East;
    var vertical := if dy > 0 then North else South;
    if Abs(dx) > Abs(dy) then (horizontal, vertical) else (vertical, horizontal)
  }

  /** The first direction always closes in on the base by one tile. */
  lemma FirstDirectionApproachesBase(p: Point)
    requires p != BasePosition
    ensures var d := SimpleMoveDirections(p).0;
      !StepWraps(p, d) && Manhattan(PointAddDirection(p, d), BasePosition) + 1 == Manhattan(p, BasePosition)
  {
  }

  /**
   * The fallback direction closes in only when the bot is off the base's
   * row or column on that axis; level with the base it steps away (South or
   * East).
   */
  lemma SecondDirectionSidesteps(p: Point)
    ensures var d := SimpleMoveDirections(p).1;
      && !StepWraps(p, d)
      && (if (Horizontal(d) && p.X != BasePosition.X) || (!Horizontal(d) && p.Y != BasePosition.Y)
          then Manhattan(PointAddDirection(p, d), BasePosition) + 1 == Manhattan(p, BasePosition)
          else Manhattan(PointAddDirection(p, d), BasePosition) == Manhattan(p, BasePosition) + 1)
  {
  }

  /** The bot one tower attacks: the last live bot in array order within range. */
  function Target(bs: seq<Bot>, from: Point, distance: (Point, Point) -> int): (r: Option<nat>)
    ensures r.Some? ==>
      r.value < |bs| && bs[r.value].HealthPoints > 0 && distance(from, bs[r.value].Position) < BOT_ATTACK_DISTANCE
    ensures r.Some? ==> forall k :: r.value < k < |bs| ==>
      !(bs[k].HealthPoints > 0 && distance(from, bs[k].Position) < BOT_ATTACK_DISTANCE)
    ensures r.None? ==> forall k :: 0 <= k < |bs| ==>
      !(bs[k].HealthPoints > 0 && distance(from, bs[k].Position) < BOT_ATTACK_DISTANCE)
  {
    if |bs| == 0 then None
    else if bs[|bs| - 1].HealthPoints > 0 && distance(from, bs[|bs| - 1].Position) < BOT_ATTACK_DISTANCE
    then Some(|bs| - 1)
    else Target(bs[..|bs| - 1], from, distance)
  }

  /**
   * One tower's shot: the bots afterwards and the tiles repainted. Only the
   * target is hit, it loses hit points and nothing else, and its tile is
   * repainted exactly when the shot kills it.
   */
  function Shot(bs: seq<Bot>, t: Tower, distance: (Point, Point) -> int): (r: (seq<Bot>, seq<Point>))
    ensures |r.0| == |bs|
    ensures Target(bs, t.Position, distance).None? ==> r == (bs, [])
    ensures Target(bs, t.Position, distance).Some? ==>
      var k := Target(bs, t.Position, distance).value;
      && (forall j :: 0 <= j < |bs| && j != k ==> r.0[j] == bs[j])
      && r.0[k].Position == bs[k].Position && r.0[k].FloodAttempts == bs[k].FloodAttempts
      && r.0[k].HealthPoints <= bs[k].HealthPoints
      && (r.0[k].HealthPoints < bs[k].HealthPoints <==> 1 <= t.Level <= 3)
      && r.1 == (if r.0[k].HealthPoints == 0 then [bs[k].Position] else [])
  {
    match Target(bs, t.Position, distance)
    case None => (bs, [])
    case Some(k) =>
      var hp := AfterAttack(bs[k].HealthPoints, TowerAttackDamage(t));
      (bs[k := bs[k].(HealthPoints := hp)], if hp == 0 then [bs[k].Position] else [])
  }

  /** The first n towers of ts shoot once each, in array order. */
  function Volley(bs: seq<Bot>, ts: seq<Tower>, n: nat, distance: (Point, Point) -> int): (r: (seq<Bot>, seq<Point>))
    requires n <= |ts|
    ensures |r.0| == |bs|
  {
    if n == 0 then (bs, [])
    else
      var before := Volley(bs, ts, n - 1, distance);
      var shot := Shot(before.0, ts[n - 1], distance);
      (shot.0, before.1 + shot.1)
  }

  /** The volley of the first j + 1 towers: that of the first j, then tower j's shot. */
  lemma VolleyNext(bs: seq<Bot>, ts: seq<Tower>, j: nat, distance: (Point, Point) -> int, drawn: seq<Point>)
    requires j < |ts|
    ensures Volley(bs, ts, j + 1, distance).0 == Shot(Volley(bs, ts, j, distance).0, ts[j], distance).0
    ensures drawn + Volley(bs, ts, j + 1, distance).1
      == (drawn + Volley(bs, ts, j, distance).1) + Shot(Volley(bs, ts, j, distance).0, ts[j], distance).1
  {
  }

  /**
   * A volley only lowers hit points: positions and flood counters stay, and
   * a bot that was dead stays dead.
   */
  lemma {:induction false} VolleyOnlyWounds(bs: seq<Bot>, ts: seq<Tower>, n: nat, distance: (Point, Point) -> int)
    requires n <= |ts|
    ensures forall k :: 0 <= k < |bs| ==>
      var b := Volley(bs, ts, n, distance).0[k];
      && b.Position == bs[k].Position && b.FloodAttempts == bs[k].FloodAttempts
      && b.HealthPoints <= bs[k].HealthPoints
  {
    if n > 0 {
      VolleyOnlyWounds(bs, ts, n - 1, distance);
    }
  }

  /** A volley leaves every bot where it stands. */
  lemma VolleyKeepsPlaces(bs: seq<Bot>, ts: seq<Tower>, n: nat, distance: (Point, Point) -> int)
    requires n <= |ts|
    ensures Positions(Volley(bs, ts, n, distance).0) == Positions(bs)
  {
    VolleyOnlyWounds(bs, ts, n, distance);
  }

  /** A tile bots may enter: on the map, not stone, no tower of ts on it. */
  predicate Open(mapTiles: seq<U8>, ts: seq<Tower>, p: Point)
    requires |mapTiles| >= MAP_BYTES
  {
    InMap(p) && GetTile(mapTiles, p) != Stone && Untowered(ts, p)
  }

  /**
   * GameMoveBot's verdict on bot b stepping in direction d among the bots bs
   * and the towers ts, and the bot afterwards: refused when the step wraps,
   * leaves the map, or meets stone or a tower; accepted without moving onto
   * the base; blocked by any bot on the target (the verdict is then whether
   * b has exhausted its path searches); otherwise one tile in direction d.
   */
  function MoveOutcome(mapTiles: seq<U8>, bs: seq<Bot>, ts: seq<Tower>, b: Bot, d: Direction): (res: (bool, Bot))
    requires |mapTiles| >= MAP_BYTES
    ensures !res.0 ==> res.1 == b
    ensures res.1 != b ==>
      && res.1 == b.(Position := PointAddDirection(b.Position, d))
      && Adjacent(b.Position, res.1.Position) && Open(mapTiles, ts, res.1.Position)
      && res.1.Position != BasePosition
      && FindAt(bs, BotPosition, res.1.Position).None?
  {
    match TryAddDirection(b.Position, d)
    case None => (false, b)
    case Some(q) =>
      if q.X >= MAP_WIDTH || q.Y >= MAP_HEIGHT || GetTile(mapTiles, q) == Stone
        || FindAt(ts, TowerPosition, q).Some?
      then (false, b)
      else if q == BasePosition then (true, b)
      else if FindAt(bs, BotPosition, q).Some? then (b.FloodAttempts >= MAX_FLOOD_ATTEMPTS, b)
      else (true, b.(Position := q))
  }

  /**
   * GameSimpleMove's result: MoveOutcome along SimpleMoveDirections' first
   * direction, and along the second only when the first is refused. The bot
   * moves at most one tile, onto an open tile.
   */
  function SimpleMoveOutcome(mapTiles: seq<U8>, bs: seq<Bot>, ts: seq<Tower>, b: Bot): (res: (bool, Bot))
    requires |mapTiles| >= MAP_BYTES
    ensures !res.0 ==> res.1 == b
    ensures res.1 == b || (res.1 == b.(Position := res.1.Position) && Adjacent(b.Position, res.1.Position) && Open(mapTiles, ts, res.1.Position))
  {
    var dirs := SimpleMoveDirections(b.Position);
    var first := MoveOutcome(mapTiles, bs, ts, b, dirs.0);
    if first.0 then first else MoveOutcome(mapTiles, bs, ts, b, dirs.1)
  }

  /** No pool entry of vs is at p: what a failed VisitedPointByPoint scan reports. */
  predicate Unpooled(vs: seq<VisitedPoint>, p: Point)
  {
    forall k :: 0 <= k < |vs| ==> vs[k].Position != p
  }

  /** No tower of ts stands on p: what a failed TowerByPoint scan reports. */
  predicate Untowered(ts: seq<Tower>, p: Point)
  {
    forall k :: 0 <= k < |ts| ==> ts[k].Position != p
  }

  /** The entry stored last in the pool vs. */
  function Newest(vs: seq<VisitedPoint>): VisitedPoint
    requires |vs| > 0
  {
    vs[|vs| - 1]
  }

  /** Every pool entry lies on the map. */
  predicate AllInMap(vs: seq<VisitedPoint>)
  {
    forall j :: 0 <= j < |vs| ==> InMap(vs[j].Position)
  }

  /**
   * The test GameComplexMove puts to the neighbour of from in direction d:
   * the step must succeed, stay on the map (checked for East and South only),
   * and reach a tile that is not stone, not in the pool vs yet and holds no
   * tower of ts. The admitted tile, if any; exactly the open, unpooled
   * four-neighbours are admitted, since North and West cannot leave the map.
   */
  function Admit(mapTiles: seq<U8>, ts: seq<Tower>, vs: seq<VisitedPoint>, from: Point, d: Direction): (q: Option<Point>)
    requires |mapTiles| >= MAP_BYTES && InMap(from)
    ensures q.Some? ==> q == TryAddDirection(from, d)
    ensures q.Some? <==>
      && TryAddDirection(from, d).Some?
      && Open(mapTiles, ts, TryAddDirection(from, d).value)
      && Unpooled(vs, TryAddDirection(from, d).value)
  {
    match TryAddDirection(from, d)
    case None => None
    case Some(p) =>
      if (d == East && p.X >= MAP_WIDTH) || (d == South && p.Y >= MAP_HEIGHT) then None
      else if GetTile(mapTiles, p) == Stone then None
      else if !Unpooled(vs, p) then None
      else if !Untowered(ts, p) then None
      else Some(p)
  }

  /** The weight one more than w, in uint8 arithmetic: 255 wraps to 0. */
  function NextWeight(w: U8): U8
  {
    if w < 255 then w + 1 else 0
  }

  /** An expansion that ends the flood loop. */
  predicate Ends(e: Expansion)
  {
    e == PoolFull || e.ReachedBase?
  }

  /** What the flood reports once an expansion ends it: the base's index, if stored. */
  function Outcome(e: Expansion): Option<nat>
  {
    if e.ReachedBase? then Some(e.index) else None
  }

  /** The order in which GameComplexMove checks the neighbours of an entry. */
  const Compass: seq<Direction> := [North, East, South, West]

  /**
   * One neighbour check of GameComplexMove's flood loop on the pool vs: the
   * neighbour of entry i in direction d, when admitted, is stored with the
   * entry's NextWeight unless the pool is full; storing the base is reported
   * with its index.
   */
  function Expand(mapTiles: seq<U8>, ts: seq<Tower>, vs: seq<VisitedPoint>, i: nat, d: Direction): (r: (Expansion, seq<VisitedPoint>))
    requires |mapTiles| >= MAP_BYTES && i < |vs| && AllInMap(vs)
    ensures AllInMap(r.1) && |vs| <= |r.1| <= |vs| + 1
    ensures |vs| <= VISITED_POINTS_COUNT ==> |r.1| <= VISITED_POINTS_COUNT
  {
    match Admit(mapTiles, ts, vs, vs[i].Position, d)
    case None => (Skipped, vs)
    case Some(p) =>
      if |vs| >= VISITED_POINTS_COUNT then (PoolFull, vs)
      else
        var vs' := vs + [VisitedPoint(p, NextWeight(vs[i].Weight))];
        if p == BasePosition then (ReachedBase(|vs|), vs') else (Stored, vs')
  }

  /**
   * What a neighbour check does to the pool: nothing when the neighbour is
   * not admitted or the pool is full; otherwise it appends the admitted
   * neighbour with the next weight, and reports the base exactly when that
   * neighbour is the base.
   */
  lemma ExpandStores(mapTiles: seq<U8>, ts: seq<Tower>, vs: seq<VisitedPoint>, i: nat, d: Direction)
    requires |mapTiles| >= MAP_BYTES && i < |vs| && AllInMap(vs)
    ensures var r := Expand(mapTiles, ts, vs, i, d);
      && r.1[..|vs|] == vs
      && (r.0 == PoolFull ==> |vs| >= VISITED_POINTS_COUNT && r.1 == vs)
      && (r.0 == Skipped ==> r.1 == vs)
      && (r.0 == Stored || r.0.ReachedBase? ==>
            && Admit(mapTiles, ts, vs, vs[i].Position, d).Some?
            && r.1 == vs + [VisitedPoint(Admit(mapTiles, ts, vs, vs[i].Position, d).value, NextWeight(vs[i].Weight))])
      && (r.0.ReachedBase? <==> r.0 == ReachedBase(|vs|) && |r.1| == |vs| + 1 && r.1[|vs|].Position == BasePosition)
  {
    var r := Expand(mapTiles, ts, vs, i, d);
    if |r.1| > |vs| {
      assert r.1[..|vs|] == vs;
    }
  }

  /**
   * The neighbour checks Compass[n], Compass[n + 1], ... of entry i, one
   * pass of GameComplexMove's flood loop over that entry on the pool vs, up
   * to the check that ends the loop or the West check: the outcome of the
   * last check made and the pool afterwards.
   */
  function Pass(mapTiles: seq<U8>, ts: seq<Tower>, vs: seq<VisitedPoint>, i: nat, n: nat): (r: (Expansion, seq<VisitedPoint>))
    requires |mapTiles| >= MAP_BYTES && AllInMap(vs) && i < |vs| && n < 4
    ensures AllInMap(r.1) && |vs| <= |r.1|
    ensures |vs| <= VISITED_POINTS_COUNT ==> |r.1| <= VISITED_POINTS_COUNT
    decreases 4 - n
  {
    var a := Expand(mapTiles, ts, vs, i, Compass[n]);
    if Ends(a.0) || n == 3 then a else Pass(mapTiles, ts, a.1, i, n + 1)
  }

  /** A pass only appends to the pool; a reported base is the entry it stored last. */
  lemma {:induction false} PassGrows(mapTiles: seq<U8>, ts: seq<Tower>, vs: seq<VisitedPoint>, i: nat, n: nat)
    requires |mapTiles| >= MAP_BYTES && AllInMap(vs) && i < |vs| && n < 4
    ensures Pass(mapTiles, ts, vs, i, n).1[..|vs|] == vs
    ensures Pass(mapTiles, ts, vs, i, n).0.ReachedBase? ==>
      && |vs| <= Pass(mapTiles, ts, vs, i, n).0.index < |Pass(mapTiles, ts, vs, i, n).1|
      && Pass(mapTiles, ts, vs, i, n).1[Pass(mapTiles, ts, vs, i, n).0.index].Position == BasePosition
    decreases 4 - n
  {
    var a := Expand(mapTiles, ts, vs, i, Compass[n]);
    ExpandStores(mapTiles, ts, vs, i, Compass[n]);
    if !Ends(a.0) && n < 3 {
      PassGrows(mapTiles, ts, a.1, i, n + 1);
      var p := Pass(mapTiles, ts, a.1, i, n + 1);
      assert p.1[..|vs|] == p.1[..|a.1|][..|vs|];
    }
  }

  /**
   * GameComplexMove's flood loop on the pool vs from entry i on: the index
   * of the stored base, or nothing when the pool fills up or every entry has
   * been expanded; and the pool afterwards.
   */
  function Wave(mapTiles: seq<U8>, ts: seq<Tower>, vs: seq<VisitedPoint>, i: nat): (Option<nat>, seq<VisitedPoint>)
    requires |mapTiles| >= MAP_BYTES && AllInMap(vs) && i <= |vs| <= VISITED_POINTS_COUNT
    decreases VISITED_POINTS_COUNT - i
  {
    if i == |vs| then (None, vs)
    else
      var p := Pass(mapTiles, ts, vs, i, 0);
      if Ends(p.0) then (Outcome(p.0), p.1) else Wave(mapTiles, ts, p.1, i + 1)
  }

  /**
   * The flood loop only appends to the pool, never beyond its capacity, and
   * every entry stays on the map; a reported index is where the base was stored.
   */
  lemma {:induction false} WaveGrows(mapTiles: seq<U8>, ts: seq<Tower>, vs: seq<VisitedPoint>, i: nat)
    requires |mapTiles| >= MAP_BYTES && AllInMap(vs) && i <= |vs| <= VISITED_POINTS_COUNT
    ensures AllInMap(Wave(mapTiles, ts, vs, i).1)
    ensures |vs| <= |Wave(mapTiles, ts, vs, i).1| <= VISITED_POINTS_COUNT
    ensures Wave(mapTiles, ts, vs, i).1[..|vs|] == vs
    ensures Wave(mapTiles, ts, vs, i).0.Some? ==>
      && |vs| <= Wave(mapTiles, ts, vs, i).0.value < |Wave(mapTiles, ts, vs, i).1|
      && Wave(mapTiles, ts, vs, i).1[Wave(mapTiles, ts, vs, i).0.value].Position == BasePosition
    decreases VISITED_POINTS_COUNT - i
  {
    if i < |vs| {
      WaveUnfolds(mapTiles, ts, vs, i);
      PassGrows(mapTiles, ts, vs, i, 0);
      var p := Pass(mapTiles, ts, vs, i, 0);
      if !Ends(p.0) {
        WaveGrows(mapTiles, ts, p.1, i + 1);
        var w := Wave(mapTiles, ts, p.1, i + 1);
        assert w.1[..|vs|] == w.1[..|p.1|][..|vs|];
      }
    }
  }

  /**
   * The flood of GameComplexMove from start: the pool restarts with start at
   * weight 0 and the loop runs from its first entry.
   */
  function Search(mapTiles: seq<U8>, ts: seq<Tower>, start: Point): (r: (Option<nat>, seq<VisitedPoint>))
    requires |mapTiles| >= MAP_BYTES && InMap(start)
    ensures 1 <= |r.1| <= VISITED_POINTS_COUNT && r.1[0] == VisitedPoint(start, 0)
    ensures r.0.Some? ==> 1 <= r.0.value < |r.1| && r.1[r.0.value].Position == BasePosition
  {
    WaveGrows(mapTiles, ts, [VisitedPoint(start, 0)], 0);
    var r := Wave(mapTiles, ts, [VisitedPoint(start, 0)], 0);
    assert r.1[0] == r.1[..1][0];
    r
  }

  /**
   * A neighbour check keeps the pool layered and its newest entry at most
   * one heavier than entry i: only open, unpooled four-neighbours of entry i
   * are stored, and entry i is light enough that NextWeight does not wrap.
   */
  lemma {:induction false} ExpandLayered(mapTiles: seq<U8>, ts: seq<Tower>, vs: seq<VisitedPoint>, parents: seq<nat>, start: Point, i: nat, d: Direction)
    returns (parents': seq<nat>)
    requires Layered(vs, parents, start, mapTiles, ts) && AllInMap(vs) && |vs| <= VISITED_POINTS_COUNT
    requires i < |vs| && Newest(vs).Weight <= vs[i].Weight + 1
    ensures Layered(Expand(mapTiles, ts, vs, i, d).1, parents', start, mapTiles, ts)
    ensures Newest(Expand(mapTiles, ts, vs, i, d).1).Weight <= vs[i].Weight + 1
  {
    var r := Expand(mapTiles, ts, vs, i, d);
    ExpandStores(mapTiles, ts, vs, i, d);
    if r.0 == Skipped || r.0 == PoolFull {
      assert r.1 == vs;
      parents' := parents;
    } else {
      var p := Admit(mapTiles, ts, vs, vs[i].Position, d).value;
      assert Fits(vs, parents, start, mapTiles, ts, i);
      assert r.1 == vs + [VisitedPoint(p, vs[i].Weight + 1)];
      PoolGrows(vs, parents, start, mapTiles, ts, i, p);
      parents' := parents + [i];
    }
  }

  /**
   * A pass over entry i keeps the pool layered and its newest entry at most
   * one heavier than entry i.
   */
  lemma {:induction false} PassLayered(mapTiles: seq<U8>, ts: seq<Tower>, vs: seq<VisitedPoint>, parents: seq<nat>, start: Point, i: nat, n: nat)
    returns (parents': seq<nat>)
    requires Layered(vs, parents, start, mapTiles, ts) && AllInMap(vs) && i < |vs| <= VISITED_POINTS_COUNT && n < 4
    requires Newest(vs).Weight <= vs[i].Weight + 1
    ensures Layered(Pass(mapTiles, ts, vs, i, n).1, parents', start, mapTiles, ts)
    ensures Newest(Pass(mapTiles, ts, vs, i, n).1).Weight <= vs[i].Weight + 1
    decreases 4 - n
  {
    var a := Expand(mapTiles, ts, vs, i, Compass[n]);
    ExpandStores(mapTiles, ts, vs, i, Compass[n]);
    var ps := ExpandLayered(mapTiles, ts, vs, parents, start, i, Compass[n]);
    if Ends(a.0) || n == 3 {
      assert Pass(mapTiles, ts, vs, i, n) == a;
      parents' := ps;
    } else {
      assert a.1[i] == a.1[..|vs|][i] == vs[i];
      parents' := PassLayered(mapTiles, ts, a.1, ps, start, i, n + 1);
      assert Pass(mapTiles, ts, vs, i, n) == Pass(mapTiles, ts, a.1, i, n + 1);
    }
  }

  /** The flood loop from entry i is a pass over entry i, then, unless the pass ends the loop, the loop from entry i + 1. */
  lemma WaveUnfolds(mapTiles: seq<U8>, ts: seq<Tower>, vs: seq<VisitedPoint>, i: nat)
    requires |mapTiles| >= MAP_BYTES && AllInMap(vs) && i < |vs| <= VISITED_POINTS_COUNT
    ensures Ends(Pass(mapTiles, ts, vs, i, 0).0) ==>
      Wave(mapTiles, ts, vs, i) == (Outcome(Pass(mapTiles, ts, vs, i, 0).0), Pass(mapTiles, ts, vs, i, 0).1)
    ensures !Ends(Pass(mapTiles, ts, vs, i, 0).0) ==>
      Wave(mapTiles, ts, vs, i) == Wave(mapTiles, ts, Pass(mapTiles, ts, vs, i, 0).1, i + 1)
  {
  }

  /** In a layered pool the entry after entry i is no lighter than it. */
  lemma NextEntryLight(mapTiles: seq<U8>, ts: seq<Tower>, vs: seq<VisitedPoint>, parents: seq<nat>, start: Point, i: nat)
    requires Layered(vs, parents, start, mapTiles, ts) && i < |vs| && Newest(vs).Weight <= vs[i].Weight + 1
    ensures i + 1 < |vs| ==> Newest(vs).Weight <= vs[i + 1].Weight + 1
  {
    if i + 1 < |vs| {
      assert Fits(vs, parents, start, mapTiles, ts, i + 1);
    }
  }

  /**
   * The flood loop keeps the pool layered: breadth-first, every entry after
   * the first one heavier than a four-neighbour before it, and the entries
   * not yet expanded at most one heavier than the one being expanded.
   */
  lemma {:induction false} WaveLayered(mapTiles: seq<U8>, ts: seq<Tower>, vs: seq<VisitedPoint>, parents: seq<nat>, start: Point, i: nat)
    returns (parents': seq<nat>)
    requires Layered(vs, parents, start, mapTiles, ts) && AllInMap(vs) && i <= |vs| <= VISITED_POINTS_COUNT
    requires i < |vs| ==> Newest(vs).Weight <= vs[i].Weight + 1
    ensures Layered(Wave(mapTiles, ts, vs, i).1, parents', start, mapTiles, ts)
    decreases VISITED_POINTS_COUNT - i, 1
  {
    if i == |vs| {
      parents' := parents;
    } else {
      var p := Pass(mapTiles, ts, vs, i, 0);
      WaveUnfolds(mapTiles, ts, vs, i);
      PassGrows(mapTiles, ts, vs, i, 0);
      var ps := PassLayered(mapTiles, ts, vs, parents, start, i, 0);
      if Ends(p.0) {
        parents' := ps;
      } else {
        assert p.1[i] == p.1[..|vs|][i];
        parents' := AfterPassLayered(mapTiles, ts, p.1, ps, start, i);
      }
    }
  }

  /** WaveLayered once the pass over entry i is done without ending the loop. */
  lemma {:induction false} AfterPassLayered(mapTiles: seq<U8>, ts: seq<Tower>, vs: seq<VisitedPoint>, parents: seq<nat>, start: Point, i: nat)
    returns (parents': seq<nat>)
    requires Layered(vs, parents, start, mapTiles, ts) && AllInMap(vs) && i < |vs| <= VISITED_POINTS_COUNT
    requires Newest(vs).Weight <= vs[i].Weight + 1
    ensures Layered(Wave(mapTiles, ts, vs, i + 1).1, parents', start, mapTiles, ts)
    decreases VISITED_POINTS_COUNT - i, 0
  {
    NextEntryLight(mapTiles, ts, vs, parents, start, i);
    parents' := WaveLayered(mapTiles, ts, vs, parents, start, i + 1);
  }

  /**
   * The pool GameComplexMove's flood leaves behind is layered from start:
   * the wave-propagation invariant the backtracking relies on.
   */
  lemma {:induction false} SearchLayered(mapTiles: seq<U8>, ts: seq<Tower>, start: Point) returns (parents: seq<nat>)
    requires |mapTiles| >= MAP_BYTES && InMap(start)
    ensures Layered(Search(mapTiles, ts, start).1, parents, start, mapTiles, ts)
  {
    parents := WaveLayered(mapTiles, ts, [VisitedPoint(start, 0)], [0], start, 0);
  }

  /**
   * The tile GameComplexMove's path search leads a bot at start to: the
   * flood's base entry walked back to weight 1. None when the flood does not
   * reach the base (or fills the pool) and when the walk back fails.
   */
  function Routed(mapTiles: seq<U8>, ts: seq<Tower>, start: Point): Option<Point>
    requires |mapTiles| >= MAP_BYTES && InMap(start)
  {
    var s := Search(mapTiles, ts, start);
    if s.0.None? then None
    else
      var k := Retrace(s.1, s.0.value);
      if k.None? then None else Some(s.1[k.value].Position)
  }

  /** A tile the path search leads to is an open four-neighbour of the start. */
  lemma RoutedNextToStart(mapTiles: seq<U8>, ts: seq<Tower>, start: Point)
    requires |mapTiles| >= MAP_BYTES && InMap(start)
    ensures Routed(mapTiles, ts, start).Some? ==>
      Adjacent(start, Routed(mapTiles, ts, start).value) && Open(mapTiles, ts, Routed(mapTiles, ts, start).value)
  {
    var s := Search(mapTiles, ts, start);
    if s.0.Some? && Retrace(s.1, s.0.value).Some? {
      var parents := SearchLayered(mapTiles, ts, start);
      RetraceEndsNextToStart(s.1, parents, start, mapTiles, ts, s.0.value);
    }
  }

  /**
   * RandGetByte's stream from position k on: the position of the first byte
   * below bound, the one a `while (v >= bound) v = RandGetByte();` loop keeps.
   */
  function DrawBelow(rand: seq<U8>, k: nat, bound: nat): (r: Option<nat>)
    ensures r.Some? ==> k <= r.value < |rand| && rand[r.value] < bound
    ensures r.Some? ==> forall j :: k <= j < r.value ==> rand[j] >= bound
    ensures r.None? ==> forall j :: k <= j < |rand| ==> rand[j] >= bound
    decreases |rand| - k
  {
    if k >= |rand| then None
    else if rand[k] < bound then Some(k)
    else DrawBelow(rand, k + 1, bound)
  }

  /** `while (v >= bound) v = RandGetByte();` on the stream rand from position k. */
  method DrawByte(rand: seq<U8>, k: nat, bound: U8) returns (v: U8, next: nat)
    requires DrawBelow(rand, k, bound).Some?
    ensures next == DrawBelow(rand, k, bound).value + 1 && v == rand[next - 1] && v < bound
  {
    ghost var at := DrawBelow(rand, k, bound).value;
    v, next := bound, k;
    while v >= bound
      invariant v >= bound ==> next <= at && DrawBelow(rand, next, bound) == Some(at)
      invariant v < bound ==> next == at + 1 && v == rand[at]
      decreases |rand| - next
    {
      v := rand[next];
      next := next + 1;
    }
  }

  /** Where the bots of bs stand. */
  function Positions(bs: seq<Bot>): (ps: seq<Point>)
    ensures |ps| == |bs| && forall k :: 0 <= k < |bs| ==> ps[k] == bs[k].Position
  {
    seq(|bs|, k requires 0 <= k < |bs| => bs[k].Position)
  }

  /** A tile GameRandomizeBot accepts: not the base, not stone, no bot on it. */
  predicate Vacant(mapTiles: seq<U8>, occupied: seq<Point>, p: Point)
    requires |mapTiles| >= MAP_BYTES && InMap(p)
  {
    p != BasePosition && GetTile(mapTiles, p) != Stone && p !in occupied
  }

  /**
   * The draws of GameRandomizeBot from stream position k on: an X below
   * MAP_WIDTH, then a Y below MAP_HEIGHT, again until the tile is vacant.
   * The tile taken and the stream position after its draws; None when the
   * stream ends first (the source then keeps drawing).
   */
  function Relocation(mapTiles: seq<U8>, occupied: seq<Point>, rand: seq<U8>, k: nat): (r: Option<(Point, nat)>)
    requires |mapTiles| >= MAP_BYTES
    ensures r.Some? ==> InMap(r.value.0) && k + 2 <= r.value.1 <= |rand|
    decreases |rand| - k
  {
    match DrawBelow(rand, k, MAP_WIDTH)
    case None => None
    case Some(ix) =>
      match DrawBelow(rand, ix + 1, MAP_HEIGHT)
      case None => None
      case Some(iy) =>
        var p := Point(rand[ix], rand[iy]);
        if Vacant(mapTiles, occupied, p) then Some((p, iy + 1))
        else Relocation(mapTiles, occupied, rand, iy + 1)
  }

  /** The tile a relocation takes is vacant. */
  lemma {:induction false} RelocationVacant(mapTiles: seq<U8>, occupied: seq<Point>, rand: seq<U8>, k: nat)
    requires |mapTiles| >= MAP_BYTES && Relocation(mapTiles, occupied, rand, k).Some?
    ensures Vacant(mapTiles, occupied, Relocation(mapTiles, occupied, rand, k).value.0)
    decreases |rand| - k
  {
    var ix := DrawBelow(rand, k, MAP_WIDTH).value;
    var iy := DrawBelow(rand, ix + 1, MAP_HEIGHT).value;
    RelocationStep(mapTiles, occupied, rand, k, ix, iy);
    if !Vacant(mapTiles, occupied, Point(rand[ix], rand[iy])) {
      RelocationVacant(mapTiles, occupied, rand, iy + 1);
    }
  }

  /** A relocation that succeeds starts with an X draw and a Y draw. */
  lemma RelocationDraws(mapTiles: seq<U8>, occupied: seq<Point>, rand: seq<U8>, k: nat)
    requires |mapTiles| >= MAP_BYTES && Relocation(mapTiles, occupied, rand, k).Some?
    ensures DrawBelow(rand, k, MAP_WIDTH).Some?
    ensures DrawBelow(rand, DrawBelow(rand, k, MAP_WIDTH).value + 1, MAP_HEIGHT).Some?
  {
  }

  /**
   * After the draws at ix and iy, the relocation takes the tile drawn when
   * it is vacant and otherwise starts over after them.
   */
  lemma RelocationStep(mapTiles: seq<U8>, occupied: seq<Point>, rand: seq<U8>, k: nat, ix: nat, iy: nat)
    requires |mapTiles| >= MAP_BYTES
    requires DrawBelow(rand, k, MAP_WIDTH) == Some(ix) && DrawBelow(rand, ix + 1, MAP_HEIGHT) == Some(iy)
    ensures Vacant(mapTiles, occupied, Point(rand[ix], rand[iy])) ==>
      Relocation(mapTiles, occupied, rand, k) == Some((Point(rand[ix], rand[iy]), iy + 1))
    ensures !Vacant(mapTiles, occupied, Point(rand[ix], rand[iy])) ==>
      Relocation(mapTiles, occupied, rand, k) == Relocation(mapTiles, occupied, rand, iy + 1)
  {
  }

  /** i++ followed by i %= n, for an index below n: the next index, back to 0 past the end. */
  lemma IndexWraps(i: nat, n: nat)
    requires i < n
    ensures (i + 1) % n == if i + 1 < n then i + 1 else 0
  {
  }

  /**
   * The index GameStep moves on to, `i++; i %= botCount` as written: None
   * when there is no bot, where the division by zero leaves it undefined.
   */
  function NextIndex(i: nat, count: nat): (r: Option<nat>)
    ensures r.Some? <==> count > 0
    ensures r.Some? && i < count ==> r.value == if i + 1 < count then i + 1 else 0
  {
    if count == 0 then None else Some((i + 1) % count)
  }

  /**
   * GameStep's move of bot b once its greedy step has failed. Below
   * MAX_FLOOD_ATTEMPTS failed searches the path search runs: b takes the
   * tile it leads to and its count restarts, or the count goes up by one.
   * From MAX_FLOOD_ATTEMPTS on there is no search: a bot far from the base
   * is relocated to spot with its count restarted, a near one has its count
   * reset to MAX_FLOOD_ATTEMPTS.
   */
  function SearchMove(mapTiles: seq<U8>, ts: seq<Tower>, b: Bot, far: bool, spot: Point): Bot
    requires |mapTiles| >= MAP_BYTES && InMap(b.Position)
  {
    if b.FloodAttempts < MAX_FLOOD_ATTEMPTS then
      match Routed(mapTiles, ts, b.Position)
      case Some(q) => b.(Position := q, FloodAttempts := 0)
      case None => b.(FloodAttempts := b.FloodAttempts + 1)
    else if far then b.(Position := spot, FloodAttempts := 0)
    else b.(FloodAttempts := MAX_FLOOD_ATTEMPTS)
  }

  /**
   * GameStep's move of bot b among the bots bs: the greedy step when it
   * succeeds, otherwise SearchMove.
   */
  function StepMove(mapTiles: seq<U8>, bs: seq<Bot>, ts: seq<Tower>, b: Bot, far: bool, spot: Point): Bot
    requires |mapTiles| >= MAP_BYTES && InMap(b.Position)
  {
    var s := SimpleMoveOutcome(mapTiles, bs, ts, b);
    if s.0 then s.1 else SearchMove(mapTiles, ts, b, far, spot)
  }

  /**
   * GameStep's move keeps the bot's hit points and its failed-search count
   * within MAX_FLOOD_ATTEMPTS. The bot stays, steps onto an open
   * four-neighbour, or is relocated to spot with its count restarted.
   */
  lemma StepMoveKeeps(mapTiles: seq<U8>, bs: seq<Bot>, ts: seq<Tower>, b: Bot, far: bool, spot: Point)
    requires |mapTiles| >= MAP_BYTES && InMap(b.Position)
    ensures var r := StepMove(mapTiles, bs, ts, b, far, spot);
      && r.HealthPoints == b.HealthPoints
      && (b.FloodAttempts <= MAX_FLOOD_ATTEMPTS ==> r.FloodAttempts <= MAX_FLOOD_ATTEMPTS)
      && (|| r.Position == b.Position
          || (Adjacent(b.Position, r.Position) && Open(mapTiles, ts, r.Position))
          || (r.Position == spot && r.FloodAttempts == 0))
  {
    RoutedNextToStart(mapTiles, ts, b.Position);
  }

  /**
   * A window-size extent as GameParseInput reads it: sscanf's "%d" stores
   * into a uint16_t (keeping the low 16 bits of the converted int), the
   * default stays when nothing converts, and the result is clamped to 255.
   */
  function ReportedExtent(scanned: Option<int>, default: U8): (r: U8)
    ensures scanned.None? ==> r == default
    ensures scanned.Some? && 0 <= scanned.value <= 255 ==> r == scanned.value
    ensures scanned.Some? && 255 <= scanned.value < 0x1_0000 ==> r == 255
  {
    match scanned
    case None => default
    case Some(v) => ClampToByte(v % 0x1_0000)
  }

  /**
   * The window size a completed ESC[8;h;wt report gives: the height from
   * the first parameter buffer, the width from the second. scan stands for
   * sscanf on the buffers laid end to end from an offset: a full buffer has
   * no terminating NUL, so the conversion may run on into the next bytes,
   * and the value is left to the parameter.
   */
  function ReportedSize(ps: seq<U8>, scan: (seq<U8>, nat) -> Option<int>): Size
  {
    Size(ReportedExtent(scan(ps, PARAM_BUF_LEN), TERMINAL_DEF_WIDTH),
         ReportedExtent(scan(ps, 0), TERMINAL_DEF_HEIGHT))
  }

  /**
   * The inspect status "%uHP" fits GameParseInput's char buf[5], with its
   * NUL, exactly for hit points below 100.
   */
  lemma InspectTextFits(hp: U8)
    ensures |Terminal.Decimal(hp)| + |"HP"| + 1 <= 5 <==> hp < 100
  {
    if hp >= 100 {
      assert Terminal.Decimal(hp) == Terminal.Decimal(hp / 10) + ['0' as int + hp % 10];
      assert Terminal.Decimal(hp / 10) == Terminal.Decimal(hp / 100) + ['0' as int + (hp / 10) % 10];
    }
  }

  /**
   * The view never scrolls more than BORDER_WIDTH * 2 cells past the map's
   * far edge, and only along an axis where the window is smaller than the map.
   */
  predicate ViewInRange(view: Point, size: Size)
  {
    && (view.X == 0 || (size.Width < MAP_WIDTH && view.X <= MAP_WIDTH - size.Width + BORDER_WIDTH * 2))
    && (view.Y == 0 || (size.Height < MAP_HEIGHT && view.Y <= MAP_HEIGHT - size.Height + BORDER_WIDTH * 2))
  }

  /**
   * The arrow keys of GameParseInput: down and right scroll one cell while
   * the window is smaller than the map and the view is not yet two cells
   * past its far edge; up and left scroll one cell back unless at 0. Any
   * other action leaves the view alone.
   */
  function Scroll(a: KeyAction, view: Point, size: Size): (r: Point)
    ensures ViewInRange(view, size) ==> ViewInRange(r, size)
    ensures a == ViewDown ==> r.X == view.X && (r.Y == view.Y || r.Y == view.Y + 1)
    ensures a == ViewRight ==> r.Y == view.Y && (r.X == view.X || r.X == view.X + 1)
    ensures a == ViewUp ==> r.X == view.X && r.Y == if view.Y == 0 then 0 else view.Y - 1
    ensures a == ViewLeft ==> r.Y == view.Y && r.X == if view.X == 0 then 0 else view.X - 1
    ensures a !in {ViewDown, ViewUp, ViewLeft, ViewRight} ==> r == view
  {
    match a
    case ViewDown =>
      if view.Y < MAP_HEIGHT - size.Height + BORDER_WIDTH * 2 && size.Height < MAP_HEIGHT then view.(Y := view.Y + 1) else view
    case ViewUp => view.(Y := if view.Y == 0 then 0 else view.Y - 1)
    case ViewLeft => view.(X := if view.X == 0 then 0 else view.X - 1)
    case ViewRight =>
      if view.X < MAP_WIDTH - size.Width + BORDER_WIDTH * 2 && size.Width < MAP_WIDTH then view.(X := view.X + 1) else view
    case _ => view
  }

  /** Scrolling down and then up comes back to the same view whenever the first step moved. */
  lemma ScrollBack(view: Point, size: Size)
    ensures Scroll(ViewUp, Scroll(ViewDown, view, size), size) == view
            <==> Scroll(ViewDown, view, size) != view || view.Y == 0
    ensures Scroll(ViewLeft, Scroll(ViewRight, view, size), size) == view
            <==> Scroll(ViewRight, view, size) != view || view.X == 0
  {
  }

  /**
   * The w/s/a/d keys of GameParseInput: the cursor moves one tile, stopping
   * at 0 and at MAP_WIDTH / MAP_HEIGHT, one past the last column and row.
   * Any other action leaves the cursor alone.
   */
  function Steer(a: KeyAction, cursor: Point): (r: Point)
    ensures cursor.X <= MAP_WIDTH && cursor.Y <= MAP_HEIGHT ==> r.X <= MAP_WIDTH && r.Y <= MAP_HEIGHT
    ensures a == CursorUp ==> r == cursor.(Y := if cursor.Y == 0 then 0 else cursor.Y - 1)
    ensures a == CursorLeft ==> r == cursor.(X := if cursor.X == 0 then 0 else cursor.X - 1)
    ensures a == CursorDown ==> r.X == cursor.X && (r.Y == cursor.Y + 1 <==> cursor.Y < MAP_HEIGHT)
    ensures a == CursorRight ==> r.Y == cursor.Y && (r.X == cursor.X + 1 <==> cursor.X < MAP_WIDTH)
    ensures a !in {CursorUp, CursorDown, CursorRight, CursorLeft} ==> r == cursor
  {
    match a
    case CursorUp => cursor.(Y := if cursor.Y == 0 then 0 else cursor.Y - 1)
    case CursorDown => if cursor.Y < MAP_HEIGHT then cursor.(Y := cursor.Y + 1) else cursor
    case CursorRight => if cursor.X < MAP_WIDTH then cursor.(X := cursor.X + 1) else cursor
    case CursorLeft => cursor.(X := if cursor.X == 0 then 0 else cursor.X - 1)
    case _ => cursor
  }

  /**
   * The guards of 's' and 'd' compare with MAP_HEIGHT and MAP_WIDTH, so the
   * cursor can step one tile past the map, where GameNewTower still reads
   * a tile code.
   */
  lemma SteerLeavesMap()
    ensures InMap(Point(MAP_WIDTH - 1, 0)) && !InMap(Steer(CursorRight, Point(MAP_WIDTH - 1, 0)))
    ensures InMap(Point(0, MAP_HEIGHT - 1)) && !InMap(Steer(CursorDown, Point(0, MAP_HEIGHT - 1)))
  {
  }

  /** What the space key reports: the hit points of the first bot under the cursor, if any. */
  function Inspection(bs: seq<Bot>, cursor: Point): (r: Feedback)
    ensures r.InspectFeedback? <==> exists k :: 0 <= k < |bs| && bs[k].Position == cursor
    ensures r.InspectFeedback? ==>
      exists k :: (0 <= k < |bs| && bs[k].Position == cursor && r.healthPoints == bs[k].HealthPoints
        && forall j :: 0 <= j < k ==> bs[j].Position != cursor)
    ensures r.InspectFeedback? || r.NoFeedback?
  {
    match FindAt(bs, BotPosition, cursor)
    case Some(k) => InspectFeedback(bs[k].HealthPoints)
    case None => NoFeedback
  }

  class Engine {
    const mapTiles: seq<U8>
    var windowSize: Size
    var gold: int
    var viewPosition: Point
    var cursorPosition: Point
    var level: nat
    var botCount: nat
    var towerCount: nat
    const bots: array<Bot>
    const towers: array<Tower>
    var visitedPointsCount: nat
    const visitedPoints: array<VisitedPoint>
    /** GameStep's static round-robin index i. */
    var stepIndex: nat
    /** GameParseInput's static decoder state and parameter buffers, end to end. */
    var csCount: nat
    const params: array<U8>
    ghost var redraws: seq<Point>

    /** The sizes of the map memory and of the tables, and the current counts. */
    ghost predicate Counted()
      reads this`botCount, this`towerCount
    {
      && |mapTiles| >= MAP_MEMORY
      && bots.Length == MAX_BOTS && towers.Length == MAX_TOWERS
      && visitedPoints.Length == VISITED_POINTS_COUNT
      && params.Length == PARAM_COUNT * PARAM_BUF_LEN
      && botCount <= MAX_BOTS && towerCount <= MAX_TOWERS
    }

    ghost predicate Shape()
      reads this`botCount, this`towerCount, this`level, this`gold, this`cursorPosition, this`csCount, this`stepIndex
    {
      && Counted()
      && level < |LevelHealthPoints|
      && 0 <= gold <= INITIAL_GOLD
      && cursorPosition.X <= MAP_WIDTH && cursorPosition.Y <= MAP_HEIGHT
      && csCount <= 15
      && (stepIndex == 0 || stepIndex < botCount)
    }

    /** Live bots stand on the map; the slots past botCount are still zero. */
    ghost predicate BotsPlaced()
      reads this`botCount, bots
    {
      && bots.Length == MAX_BOTS && botCount <= MAX_BOTS
      && (forall k :: 0 <= k < botCount ==> InMap(bots[k].Position))
      && (forall k :: botCount <= k < MAX_BOTS ==> bots[k] == Bot(0, Point(0, 0), 0))
    }

    /**
     * Towers are level 1, never on the base or an entry point, and no two
     * share a tile.
     */
    ghost predicate TowersPlaced()
      reads this`towerCount, towers
    {
      && towerCount <= towers.Length
      && (forall k :: 0 <= k < towerCount ==>
            towers[k].Level == 1 && towers[k].Position != BasePosition && towers[k].Position !in EntryPoints)
      && (forall j, k :: 0 <= j < k < towerCount ==> towers[j].Position != towers[k].Position)
    }

    /** The pool never holds more than its VISITED_POINTS_COUNT slots. */
    ghost predicate PoolBounded()
      reads this`visitedPointsCount
    {
      visitedPointsCount <= VISITED_POINTS_COUNT
    }

    /** What the pool operations rely on: the map memory, the tower table and a bounded pool. */
    ghost predicate PoolReady()
      reads this`towerCount, this`visitedPointsCount
    {
      && |mapTiles| >= MAP_MEMORY && towers.Length == MAX_TOWERS && towerCount <= MAX_TOWERS
      && visitedPoints.Length == VISITED_POINTS_COUNT && visitedPointsCount <= VISITED_POINTS_COUNT
    }

    ghost predicate Valid()
      reads this, bots, towers
    {
      Shape() && PoolBounded() && BotsPlaced() && TowersPlaced()
    }

    /** Every active bot has failed at most MAX_FLOOD_ATTEMPTS path searches in a row. */
    ghost predicate FloodBounded()
      reads this`botCount, bots
    {
      botCount <= bots.Length && forall k :: 0 <= k < botCount ==> bots[k].FloodAttempts <= MAX_FLOOD_ATTEMPTS
    }

    /** The view is within scrolling range of the window size. */
    ghost predicate ViewBounded()
      reads this`viewPosition, this`windowSize
    {
      ViewInRange(viewPosition, windowSize)
    }

    /** The power-on state of the globals. */
    constructor (mapTiles: seq<U8>)
      requires |mapTiles| >= MAP_MEMORY
      ensures Valid() && FloodBounded() && ViewBounded()
      ensures this.mapTiles == mapTiles
      ensures windowSize == Size(TERMINAL_DEF_WIDTH, TERMINAL_DEF_HEIGHT) && gold == INITIAL_GOLD
      ensures viewPosition == Point(0, 0) && cursorPosition == Point(0, 0) && level == 0
      ensures botCount == 0 && towerCount == 0 && visitedPointsCount == 0
      ensures stepIndex == 0 && csCount == 0 && redraws == []
      ensures forall k :: 0 <= k < params.Length ==> params[k] == 0
    {
      this.mapTiles := mapTiles;
      windowSize := Size(TERMINAL_DEF_WIDTH, TERMINAL_DEF_HEIGHT);
      gold := INITIAL_GOLD;
      viewPosition := Point(0, 0);
      cursorPosition := Point(0, 0);
      level := 0;
      botCount := 0;
      towerCount := 0;
      bots := new Bot[MAX_BOTS](_ => Bot(0, Point(0, 0), 0));
      towers := new Tower[MAX_TOWERS](_ => Tower(Point(0, 0), 0));
      visitedPointsCount := 0;
      visitedPoints := new VisitedPoint[VISITED_POINTS_COUNT](_ => VisitedPoint(Point(0, 0), 0));
      stepIndex := 0;
      csCount := 0;
      params := new U8[PARAM_COUNT * PARAM_BUF_LEN](_ => 0);
      redraws := [];
    }

    /** GameTowerByPoint: the first tower standing on p. */
    method TowerByPoint(p: Point) returns (r: Option<nat>)
      requires towerCount <= towers.Length
      ensures r == FindAt(towers[..towerCount], TowerPosition, p)
    {
      var i := 0;
      while i < towerCount
        invariant i <= towerCount
        invariant forall k :: 0 <= k < i ==> towers[k].Position != p
      {
        if PointsEqual(towers[i].Position, p) {
          return Some(i);
        }
        i := i + 1;
      }
      return None;
    }

    /** GameBotByPoint: the first bot, live or dead, standing on p. */
    method BotByPoint(p: Point) returns (r: Option<nat>)
      requires Shape()
      ensures r == FindAt(bots[..botCount], BotPosition, p)
    {
      var i := 0;
      while i < botCount
        invariant i <= botCount
        invariant forall k :: 0 <= k < i ==> bots[k].Position != p
      {
        if PointsEqual(bots[i].Position, p) {
          return Some(i);
        }
        i := i + 1;
      }
      return None;
    }

    /** VisitedPointByPoint: the first pool entry for p. */
    method VisitedPointByPoint(p: Point) returns (r: Option<nat>)
      requires PoolReady()
      ensures r == FindAt(visitedPoints[..visitedPointsCount], VisitedPosition, p)
    {
      var i := 0;
      while i < visitedPointsCount
        invariant i <= visitedPointsCount
        invariant forall k :: 0 <= k < i ==> visitedPoints[k].Position != p
      {
        if PointsEqual(visitedPoints[i].Position, p) {
          return Some(i);
        }
        i := i + 1;
      }
      return None;
    }

    /** The status GameNewTower reports for the current cursor, checked in its order. */
    ghost function BuildOutcome(): (r: BuildStatus)
      reads this, bots, towers
      requires Valid()
      ensures r == TowerBuilt <==>
        && towerCount < MAX_TOWERS && gold >= TOWER_BUILD_COST
        && GetTile(mapTiles, cursorPosition) != Stone
        && FindAt(towers[..towerCount], TowerPosition, cursorPosition).None?
        && cursorPosition != BasePosition && cursorPosition !in EntryPoints
        && viewPosition.X <= cursorPosition.X < viewPosition.X + windowSize.Width
        && viewPosition.Y <= cursorPosition.Y < viewPosition.Y + windowSize.Height
        && (FindAt(bots[..botCount], BotPosition, cursorPosition).None?
            || bots[FindAt(bots[..botCount], BotPosition, cursorPosition).value].HealthPoints == 0)
      ensures r == TowerLimitExceeded <==> towerCount >= MAX_TOWERS
      ensures r == MoreGoldRequired <==> towerCount < MAX_TOWERS && gold < TOWER_BUILD_COST
    {
      var c := cursorPosition;
      if towerCount >= MAX_TOWERS then TowerLimitExceeded
      else if gold - TOWER_BUILD_COST < 0 then MoreGoldRequired
      else if GetTile(mapTiles, c) == Stone
        || FindAt(towers[..towerCount], TowerPosition, c).Some?
        || c == BasePosition
        || c.X < viewPosition.X || c.X >= viewPosition.X + windowSize.Width
        || c.Y < viewPosition.Y || c.Y >= viewPosition.Y + windowSize.Height
      then TowerNotBuilt
      else match FindAt(bots[..botCount], BotPosition, c)
        case Some(k) => if bots[k].HealthPoints > 0 then TowerNotBuilt
                        else if c in EntryPoints then TowerNotBuilt else TowerBuilt
        case None => if c in EntryPoints then TowerNotBuilt else TowerBuilt
    }

    /** The tests of GameNewTower, in its order, for the current cursor. */
    method BuildVerdict() returns (status: BuildStatus)
      requires Valid()
      ensures status == BuildOutcome()
    {
      if towerCount >= MAX_TOWERS {
        return TowerLimitExceeded;
      }
      if gold - TOWER_BUILD_COST < 0 {
        return MoreGoldRequired;
      }
      var existing := TowerByPoint(cursorPosition);
      if GetTile(mapTiles, cursorPosition) == Stone
        || existing.Some?
        || PointsEqual(cursorPosition, BasePosition)
        || cursorPosition.X < viewPosition.X
        || cursorPosition.X >= viewPosition.X + windowSize.Width
        || cursorPosition.Y < viewPosition.Y
        || cursorPosition.Y >= viewPosition.Y + windowSize.Height
      {
        return TowerNotBuilt;
      }
      var bot := BotByPoint(cursorPosition);
      if bot.Some? && bots[bot.value].HealthPoints > 0 {
        return TowerNotBuilt;
      }
      var atEntry := IsEntryPoint(cursorPosition);
      return if atEntry then TowerNotBuilt else TowerBuilt;
    }

    /**
     * GameNewTower: build a level-1 tower under the cursor for 1500 gold when
     * BuildOutcome allows it; otherwise change nothing.
     */
    method NewTower() returns (status: BuildStatus)
      requires Valid()
      modifies towers, this`towerCount, this`gold
      ensures Valid()
      ensures status == old(BuildOutcome())
      ensures status == TowerBuilt ==>
        && towerCount == old(towerCount) + 1
        && towers[..towerCount] == old(towers[..towerCount]) + [Tower(cursorPosition, 1)]
        && gold == old(gold) - TOWER_BUILD_COST
      ensures status != TowerBuilt ==> towerCount == old(towerCount) && gold == old(gold) && unchanged(towers)
      ensures forall k :: towerCount <= k < MAX_TOWERS ==> towers[k] == old(towers[k])
      ensures forall k :: 0 <= k < old(towerCount) ==> towers[k] == old(towers[k])
    {
      status := BuildVerdict();
      if status == TowerBuilt {
        AppendTower();
      }
    }

    /** The loop over entryPoints in GameNewTower. */
    method IsEntryPoint(p: Point) returns (r: bool)
      ensures r <==> p in EntryPoints
    {
      for i := 0 to |EntryPoints|
        invariant forall k :: 0 <= k < i ==> EntryPoints[k] != p
      {
        if PointsEqual(EntryPoints[i], p) {
          return true;
        }
      }
      return false;
    }

    /** The successful end of GameNewTower. */
    method AppendTower()
      requires Valid() && towerCount < MAX_TOWERS && gold >= TOWER_BUILD_COST
      requires cursorPosition != BasePosition && cursorPosition !in EntryPoints
      requires FindAt(towers[..towerCount], TowerPosition, cursorPosition).None?
      modifies towers, this`towerCount, this`gold
      ensures Valid()
      ensures towerCount == old(towerCount) + 1
      ensures towers[..towerCount] == old(towers[..towerCount]) + [Tower(cursorPosition, 1)]
      ensures forall k :: towerCount <= k < MAX_TOWERS ==> towers[k] == old(towers[k])
      ensures gold == old(gold) - TOWER_BUILD_COST
      ensures forall k :: 0 <= k < old(towerCount) ==> towers[k] == old(towers[k])
    {
      towers[towerCount] := Tower(cursorPosition, 1);
      towerCount := towerCount + 1;
      gold := gold - TOWER_BUILD_COST;
    }

    /**
     * GameNewBot: while there is room, a bot of the level's hit points at p
     * in the next slot; no other slot changes.
     */
    method NewBot(p: Point)
      requires Valid() && InMap(p)
      modifies bots, this`botCount
      ensures Valid()
      ensures old(botCount) < MAX_BOTS ==>
        && botCount == old(botCount) + 1
        && bots[..] == old(bots[..])[old(botCount) := Bot(LevelHealthPoints[level], p, 0)]
      ensures old(botCount) >= MAX_BOTS ==> botCount == old(botCount) && bots[..] == old(bots[..])
    {
      if botCount < MAX_BOTS {
        bots[botCount] := bots[botCount].(HealthPoints := LevelHealthPoints[level], Position := p);
        botCount := botCount + 1;
      }
    }

    /**
     * GameAttackBot: the bot's hit points drop by damage, clamped at zero;
     * its tile is repainted exactly when that leaves it with none.
     */
    method AttackBot(botIndex: nat, damage: U8)
      requires Valid() && botIndex < MAX_BOTS
      modifies bots, this`redraws
      ensures Valid()
      ensures bots[..] == old(bots[..])[botIndex := old(bots[botIndex]).(HealthPoints := AfterAttack(old(bots[botIndex].HealthPoints), damage))]
      ensures redraws == old(redraws) + if bots[botIndex].HealthPoints == 0 then [bots[botIndex].Position] else []
    {
      var newHp := bots[botIndex].HealthPoints - damage;
      newHp := if newHp < 0 then 0 else newHp;
      bots[botIndex] := bots[botIndex].(HealthPoints := newHp);
      if newHp == 0 {
        redraws := redraws + [bots[botIndex].Position];
      }
    }

    /**
     * The repaint of a bot's old tile as it becomes b, the bot on its new
     * tile, as GameMoveBot and GameComplexMove do it.
     */
    method Relocate(bi: nat, b: Bot)
      requires Valid() && bi < botCount && InMap(b.Position)
      modifies bots, this`redraws
      ensures Valid()
      ensures bots[..] == old(bots[..])[bi := b]
      ensures redraws == old(redraws) + [old(bots[bi].Position)]
    {
      redraws := redraws + [bots[bi].Position];
      bots[bi] := b;
    }

    /**
     * The tests of GameMoveBot, in its order, for bot b stepping in
     * direction d: the verdict, and the tile b moves to when it moves.
     */
    method MoveVerdict(b: Bot, d: Direction) returns (ok: bool, target: Option<Point>)
      requires Valid() && InMap(b.Position)
      ensures target.Some? ==> InMap(target.value) && target.value != b.Position
      ensures (ok, if target.Some? then b.(Position := target.value) else b)
        == MoveOutcome(mapTiles, bots[..botCount], towers[..towerCount], b, d)
    {
      target := None;
      var step := TryAddDirection(b.Position, d);
      if step.None? || step.value.X >= MAP_WIDTH || step.value.Y >= MAP_HEIGHT
        || GetTile(mapTiles, step.value) == Stone
      {
        return false, None;
      }
      var tower := TowerByPoint(step.value);
      if tower.Some? {
        return false, None;
      }
      if PointsEqual(step.value, BasePosition) {
        return true, None;
      }
      var other := BotByPoint(step.value);
      if other.Some? {
        return b.FloodAttempts >= MAX_FLOOD_ATTEMPTS, None;
      }
      return true, step;
    }

    /** GameMoveBot on bots[bi]. */
    method MoveBot(bi: nat, d: Direction) returns (ok: bool)
      requires Valid() && bi < botCount
      modifies bots, this`redraws
      ensures Valid()
      ensures (ok, bots[bi]) == MoveOutcome(mapTiles, old(bots[..botCount]), towers[..towerCount], old(bots[bi]), d)
      ensures forall k :: 0 <= k < MAX_BOTS && k != bi ==> bots[k] == old(bots[k])
      ensures redraws == old(redraws) + if bots[bi] != old(bots[bi]) then [old(bots[bi].Position)] else []
    {
      var target;
      ok, target := MoveVerdict(bots[bi], d);
      if target.Some? {
        Relocate(bi, bots[bi].(Position := target.value));
      }
    }

    /** GameSimpleMove on bots[bi]. */
    method SimpleMove(bi: nat) returns (moved: bool)
      requires Valid() && bi < botCount
      modifies bots, this`redraws
      ensures Valid()
      ensures (moved, bots[bi]) == SimpleMoveOutcome(mapTiles, old(bots[..botCount]), towers[..towerCount], old(bots[bi]))
      ensures forall k :: 0 <= k < MAX_BOTS && k != bi ==> bots[k] == old(bots[k])
      ensures redraws == old(redraws) + if bots[bi] != old(bots[bi]) then [old(bots[bi].Position)] else []
      ensures old(FloodBounded()) ==> FloodBounded()
      ensures !moved ==> bots[bi] == old(bots[bi])
    {
      var dirs := SimpleMoveDirections(bots[bi].Position);
      moved := MoveBot(bi, dirs.0);
      if !moved {
        assert bots[..botCount] == old(bots[..botCount]);
        moved := MoveBot(bi, dirs.1);
      }
    }

    /** VisitedPointStore: append (p, weight) while the pool has room. */
    method VisitedPointStore(p: Point, weight: U8) returns (r: Option<nat>)
      requires PoolReady()
      modifies visitedPoints, this`visitedPointsCount
      ensures PoolReady()
      ensures r.Some? <==> old(visitedPointsCount) < VISITED_POINTS_COUNT
      ensures r.Some? ==> r.value == old(visitedPointsCount) && visitedPointsCount == r.value + 1
      ensures r.Some? ==> visitedPoints[..] == old(visitedPoints[..])[r.value := VisitedPoint(p, weight)]
      ensures r.None? ==> visitedPointsCount == old(visitedPointsCount) && visitedPoints[..] == old(visitedPoints[..])
    {
      if visitedPointsCount < VISITED_POINTS_COUNT {
        visitedPoints[visitedPointsCount] := VisitedPoint(p, weight);
        r := Some(visitedPointsCount);
        visitedPointsCount := visitedPointsCount + 1;
      } else {
        r := None;
      }
    }

    /** VisitedPointsClear: empty the pool. */
    method VisitedPointsClear()
      requires PoolReady()
      modifies this`visitedPointsCount
      ensures PoolReady() && visitedPointsCount == 0
    {
      visitedPointsCount := 0;
    }

    /**
     * One probe of VisitedPointByPointWeight: the pool entry for q (when the
     * step produced one) if it has weight w.
     */
    method ProbeAt(q: Option<Point>, w: U8) returns (r: Option<nat>)
      requires PoolReady()
      ensures r == Probe(visitedPoints[..visitedPointsCount], q, w)
    {
      r := None;
      if q.Some? {
        var found := VisitedPointByPoint(q.value);
        if found.Some? && visitedPoints[found.value].Weight == w {
          r := found;
        }
      }
    }

    /** VisitedPointByPointWeight over the filled part of the pool. */
    method VisitedPointByPointWeight(p: Point, w: U8) returns (r: Option<nat>)
      requires PoolReady()
      ensures r == BacktrackStep(visitedPoints[..visitedPointsCount], p, w)
    {
      r := ProbeAt(TryAddDirection(p, North), w);
      if r.Some? {
        return;
      }
      r := ProbeAt(if TryAddDirection(p, East).None? then Some(p) else None, w);
      if r.Some? {
        return;
      }
      r := ProbeAt(TryAddDirection(p, South), w);
      if r.Some? {
        return;
      }
      r := ProbeAt(TryAddDirection(p, West), w);
    }

    /**
     * The pool GameComplexMove grows from start: layered by weight, no
     * position twice, and no tower on any tile after the start.
     */
    ghost predicate Pool(vs: seq<VisitedPoint>, parents: seq<nat>, start: Point)
      reads this`towerCount, towers
    {
      towerCount <= towers.Length && Layered(vs, parents, start, mapTiles, towers[..towerCount])
    }

    /**
     * The test in GameComplexMove's loop for the neighbour of from in
     * direction d.
     */
    method Candidate(from: Point, d: Direction) returns (q: Option<Point>)
      requires PoolReady() && InMap(from)
      ensures q == Admit(mapTiles, towers[..towerCount], visitedPoints[..visitedPointsCount], from, d)
    {
      var step := TryAddDirection(from, d);
      if step.None? || (d == East && step.value.X >= MAP_WIDTH) || (d == South && step.value.Y >= MAP_HEIGHT) {
        return None;
      }
      var p := step.value;
      if GetTile(mapTiles, p) == Stone {
        return None;
      }
      var seen := VisitedPointByPoint(p);
      if seen.Some? {
        return None;
      }
      var tower := TowerByPoint(p);
      if tower.Some? {
        return None;
      }
      return step;
    }

    /** One of the four neighbour checks in GameComplexMove's flood loop. */
    method ExpandNeighbor(ghost ts: seq<Tower>, i: nat, d: Direction) returns (st: Expansion)
      requires PoolReady() && towers[..towerCount] == ts && i < visitedPointsCount
      requires AllInMap(visitedPoints[..visitedPointsCount])
      modifies visitedPoints, this`visitedPointsCount
      ensures PoolReady()
      ensures (st, visitedPoints[..visitedPointsCount])
        == Expand(mapTiles, ts, old(visitedPoints[..visitedPointsCount]), i, d)
    {
      ghost var vs := visitedPoints[..visitedPointsCount];
      var vp := visitedPoints[i];
      var next := Candidate(vp.Position, d);
      if next.None? {
        return Skipped;
      }
      var p := next.value;
      var stored := VisitedPointStore(p, NextWeight(vp.Weight));
      if stored.None? {
        assert visitedPoints[..visitedPointsCount] == vs;
        return PoolFull;
      }
      assert visitedPoints[..visitedPointsCount] == vs + [VisitedPoint(p, NextWeight(vp.Weight))];
      st := if PointsEqual(p, BasePosition) then ReachedBase(stored.value) else Stored;
    }

    /**
     * Two neighbour checks of the flood loop, Compass[n] and Compass[n + 1],
     * the second unless the first ends the loop: after the East check the
     * pass over entry i goes on from the South check; after the West check,
     * or a check that ends the loop, the pass is done.
     */
    method ExpandPair(ghost ts: seq<Tower>, i: nat, n: nat) returns (st: Expansion)
      requires PoolReady() && towers[..towerCount] == ts && i < visitedPointsCount && (n == 0 || n == 2)
      requires AllInMap(visitedPoints[..visitedPointsCount])
      modifies visitedPoints, this`visitedPointsCount
      ensures PoolReady() && AllInMap(visitedPoints[..visitedPointsCount])
      ensures old(visitedPointsCount) <= visitedPointsCount
      ensures Ends(st) || n == 2 ==>
        Pass(mapTiles, ts, old(visitedPoints[..visitedPointsCount]), i, n) == (st, visitedPoints[..visitedPointsCount])
      ensures !Ends(st) && n == 0 ==>
        Pass(mapTiles, ts, old(visitedPoints[..visitedPointsCount]), i, 0)
          == Pass(mapTiles, ts, visitedPoints[..visitedPointsCount], i, 2)
    {
      st := ExpandNeighbor(ts, i, Compass[n]);
      if !Ends(st) {
        st := ExpandNeighbor(ts, i, Compass[n + 1]);
      }
    }

    /**
     * One pass of the flood loop over entry i, North, East, South, West,
     * stopping at the check that ends the loop: the flood from entry i
     * either ends with the pass's outcome or goes on from entry i + 1 of
     * the grown pool.
     */
    method ExpandEntry(ghost ts: seq<Tower>, i: nat) returns (st: Expansion)
      requires PoolReady() && towers[..towerCount] == ts && i < visitedPointsCount
      requires AllInMap(visitedPoints[..visitedPointsCount])
      modifies visitedPoints, this`visitedPointsCount
      ensures PoolReady() && towers[..towerCount] == ts && AllInMap(visitedPoints[..visitedPointsCount])
      ensures i < visitedPointsCount
      ensures Wave(mapTiles, ts, old(visitedPoints[..visitedPointsCount]), i)
        == if Ends(st) then (Outcome(st), visitedPoints[..visitedPointsCount])
           else Wave(mapTiles, ts, visitedPoints[..visitedPointsCount], i + 1)
    {
      WaveUnfolds(mapTiles, ts, visitedPoints[..visitedPointsCount], i);
      st := ExpandPair(ts, i, 0);
      if !Ends(st) {
        st := ExpandPair(ts, i, 2);
      }
    }

    /**
     * The first half of GameComplexMove: the pool restarts with start at
     * weight 0 and grows entry by entry until the base is stored (its index
     * is returned), the pool is full or every entry has been expanded.
     */
    method Flood(start: Point) returns (destination: Option<nat>)
      requires Shape() && PoolBounded() && InMap(start)
      modifies visitedPoints, this`visitedPointsCount
      ensures PoolBounded()
      ensures (destination, visitedPoints[..visitedPointsCount]) == Search(mapTiles, towers[..towerCount], start)
    {
      ghost var ts := towers[..towerCount];
      VisitedPointsClear();
      var _ := VisitedPointStore(start, 0);
      assert visitedPoints[..visitedPointsCount] == [VisitedPoint(start, 0)];
      destination := Spread(ts, Search(mapTiles, ts, start));
    }

    /** The flood loop of GameComplexMove on the pool as it stands, from its first entry. */
    method Spread(ghost ts: seq<Tower>, ghost goal: (Option<nat>, seq<VisitedPoint>)) returns (destination: Option<nat>)
      requires PoolReady() && towers[..towerCount] == ts && AllInMap(visitedPoints[..visitedPointsCount])
      requires Wave(mapTiles, ts, visitedPoints[..visitedPointsCount], 0) == goal
      modifies visitedPoints, this`visitedPointsCount
      ensures PoolReady() && (destination, visitedPoints[..visitedPointsCount]) == goal
    {
      var i := 0;
      while i < visitedPointsCount
        invariant PoolReady() && towers[..towerCount] == ts && i <= visitedPointsCount
        invariant AllInMap(visitedPoints[..visitedPointsCount])
        invariant Wave(mapTiles, ts, visitedPoints[..visitedPointsCount], i) == goal
        decreases VISITED_POINTS_COUNT - i
      {
        ghost var before := visitedPoints[..visitedPointsCount];
        var st := ExpandEntry(ts, i);
        if Ends(st) {
          assert (Outcome(st), visitedPoints[..visitedPointsCount]) == Wave(mapTiles, ts, before, i);
          return Outcome(st);
        }
        i := i + 1;
      }
      assert Wave(mapTiles, ts, visitedPoints[..visitedPointsCount], i) == (None, visitedPoints[..visitedPointsCount]);
      destination := None;
    }

    /**
     * The second half of GameComplexMove: from the stored base, step to a
     * lighter neighbour until weight 1 is reached.
     */
    method Backtrack(destination: nat) returns (r: Option<nat>)
      requires PoolReady() && destination < visitedPointsCount
      ensures r == Retrace(visitedPoints[..visitedPointsCount], destination)
    {
      ghost var goal := Retrace(visitedPoints[..visitedPointsCount], destination);
      r := Some(destination);
      while r.Some? && visitedPoints[r.value].Weight > 1
        invariant r.Some? ==> r.value < visitedPointsCount && Retrace(visitedPoints[..visitedPointsCount], r.value) == goal
        invariant r.None? ==> goal.None?
        decreases if r.Some? then visitedPoints[r.value].Weight as int else 0
      {
        r := BacktrackFrom(r.value, goal);
      }
    }

    /** One step of Backtrack: the lighter neighbour of entry j, on the same walk. */
    method BacktrackFrom(j: nat, ghost goal: Option<nat>) returns (next: Option<nat>)
      requires PoolReady() && j < visitedPointsCount && visitedPoints[j].Weight > 1
      requires Retrace(visitedPoints[..visitedPointsCount], j) == goal
      ensures next.Some? ==> next.value < visitedPointsCount && visitedPoints[next.value].Weight < visitedPoints[j].Weight
      ensures next.Some? ==> Retrace(visitedPoints[..visitedPointsCount], next.value) == goal
      ensures next.None? ==> goal.None?
    {
      ghost var vs := visitedPoints[..visitedPointsCount];
      var vp := visitedPoints[j];
      assert vp == vs[j];
      next := VisitedPointByPointWeight(vp.Position, vp.Weight - 1);
      RetraceStep(vs, j, next);
      assert next.Some? ==> vs[next.value] == visitedPoints[next.value];
    }

    /**
     * The path search of GameComplexMove from start: the flood, then the
     * backtrack from the stored base; the result is the tile the walk ends on,
     * next to start.
     */
    method Route(start: Point) returns (next: Option<Point>, ghost parents: seq<nat>, ghost destination: nat)
      requires Valid() && InMap(start)
      modifies visitedPoints, this`visitedPointsCount
      ensures PoolBounded()
      ensures Pool(visitedPoints[..visitedPointsCount], parents, start)
      ensures visitedPoints[..visitedPointsCount] == Search(mapTiles, towers[..towerCount], start).1
      ensures next == Routed(mapTiles, towers[..towerCount], start)
      ensures next.Some? ==>
        && 1 <= destination < visitedPointsCount
        && visitedPoints[destination].Position == BasePosition
        && Retrace(visitedPoints[..visitedPointsCount], destination).Some?
        && next.value == visitedPoints[Retrace(visitedPoints[..visitedPointsCount], destination).value].Position
        && Adjacent(start, next.value) && Open(mapTiles, towers[..towerCount], next.value)
    {
      var found := Flood(start);
      parents := SearchLayered(mapTiles, towers[..towerCount], start);
      destination := 0;
      if found.None? {
        return None, parents, destination;
      }
      destination := found.value;
      var target := Backtrack(found.value);
      if target.None? {
        return None, parents, destination;
      }
      ghost var vs := visitedPoints[..visitedPointsCount];
      RetraceEndsNextToStart(vs, parents, start, mapTiles, towers[..towerCount], destination);
      var q := visitedPoints[target.value].Position;
      assert q == vs[target.value].Position;
      return Some(q), parents, destination;
    }

    /**
     * GameComplexMove: unless the bot has used up its path searches, a
     * route search; the bot moves exactly when the search leads to a tile,
     * and then it steps onto that tile and its search count restarts. Any
     * failure leaves the bot as it was.
     */
    method ComplexMove(bi: nat) returns (moved: bool, ghost parents: seq<nat>)
      requires Valid() && bi < botCount
      modifies bots, visitedPoints, this`visitedPointsCount, this`redraws
      ensures Valid()
      ensures forall k :: 0 <= k < MAX_BOTS && k != bi ==> bots[k] == old(bots[k])
      ensures moved <==> old(bots[bi].FloodAttempts) < MAX_FLOOD_ATTEMPTS && old(Routed(mapTiles, towers[..towerCount], bots[bi].Position)).Some?
      ensures moved ==> bots[bi].Position == old(Routed(mapTiles, towers[..towerCount], bots[bi].Position)).value
      ensures old(bots[bi].FloodAttempts) >= MAX_FLOOD_ATTEMPTS ==>
        !moved && visitedPointsCount == old(visitedPointsCount) && visitedPoints[..] == old(visitedPoints[..])
      ensures !moved ==> bots[bi] == old(bots[bi]) && redraws == old(redraws)
      ensures moved ==>
        && bots[bi] == old(bots[bi]).(Position := bots[bi].Position, FloodAttempts := 0)
        && Adjacent(old(bots[bi].Position), bots[bi].Position) && Open(mapTiles, towers[..towerCount], bots[bi].Position)
        && redraws == old(redraws) + [old(bots[bi].Position)]
      ensures old(bots[bi].FloodAttempts) < MAX_FLOOD_ATTEMPTS ==>
        Pool(visitedPoints[..visitedPointsCount], parents, old(bots[bi].Position))
    {
      parents := [];
      if bots[bi].FloodAttempts >= MAX_FLOOD_ATTEMPTS {
        return false, parents;
      }
      var next;
      ghost var destination;
      next, parents, destination := Route(bots[bi].Position);
      if next.None? {
        return false, parents;
      }
      ghost var vs := visitedPoints[..visitedPointsCount];
      Relocate(bi, bots[bi].(Position := next.value, FloodAttempts := 0));
      assert visitedPoints[..visitedPointsCount] == vs;
      return true, parents;
    }

    /**
     * The inner loop of GameStep's volley: the last live bot in range of a
     * tower at from, scanning the bots in array order.
     */
    method TargetOf(from: Point, distance: (Point, Point) -> int) returns (r: Option<nat>)
      requires botCount <= bots.Length
      ensures r == Target(bots[..botCount], from, distance)
    {
      r := None;
      for k := 0 to botCount
        invariant r == Target(bots[..k], from, distance)
      {
        assert bots[..k + 1][..k] == bots[..k];
        if bots[k].HealthPoints > 0 && distance(from, bots[k].Position) < BOT_ATTACK_DISTANCE {
          r := Some(k);
        }
      }
    }

    /**
     * The tower loop of GameStep: every tower in array order attacks its
     * target with its level's damage. The bots end as Volley says, and the
     * tiles of the bots it kills are repainted in that order.
     */
    method FireTowers(distance: (Point, Point) -> int)
      requires Valid()
      modifies bots, this`redraws
      ensures Valid()
      ensures bots[..botCount] == Volley(old(bots[..botCount]), towers[..towerCount], towerCount, distance).0
      ensures redraws == old(redraws) + Volley(old(bots[..botCount]), towers[..towerCount], towerCount, distance).1
    {
      ghost var bs := bots[..botCount];
      ghost var ts := towers[..towerCount];
      for j := 0 to towerCount
        invariant Valid()
        invariant bots[..botCount] == Volley(bs, ts, j, distance).0
        invariant redraws == old(redraws) + Volley(bs, ts, j, distance).1
      {
        FireTower(j, distance, bs, ts, old(redraws));
      }
    }

    /**
     * One pass of GameStep's tower loop: towers[j] shoots as Shot says,
     * which carries the volley of the towers before it on by one tower.
     */
    method FireTower(j: nat, distance: (Point, Point) -> int, ghost bs: seq<Bot>, ghost ts: seq<Tower>, ghost drawn: seq<Point>)
      requires Valid() && j < towerCount && ts == towers[..towerCount]
      requires bots[..botCount] == Volley(bs, ts, j, distance).0
      requires redraws == drawn + Volley(bs, ts, j, distance).1
      modifies bots, this`redraws
      ensures Valid()
      ensures bots[..botCount] == Volley(bs, ts, j + 1, distance).0
      ensures redraws == drawn + Volley(bs, ts, j + 1, distance).1
    {
      VolleyNext(bs, ts, j, distance, drawn);
      ghost var cur := bots[..botCount];
      var target := TargetOf(towers[j].Position, distance);
      if target.Some? {
        var k := target.value;
        AttackBot(k, TowerAttackDamage(towers[j]));
        assert bots[..botCount] == cur[k := cur[k].(HealthPoints := AfterAttack(cur[k].HealthPoints, TowerAttackDamage(towers[j])))];
      }
    }

    /**
     * GameRandomizeBot on bots[bi], drawing its bytes from rand: the bot
     * moves to the tile Relocation picks with its search count restarted,
     * and its old tile is repainted. rand is a stream on which the loop
     * returns; used is how much of it the draws took.
     */
    method RandomizeBot(bi: nat, rand: seq<U8>) returns (used: nat)
      requires Valid() && bi < botCount
      requires Relocation(mapTiles, Positions(bots[..botCount]), rand, 0).Some?
      modifies bots, this`redraws
      ensures Valid()
      ensures bots[..] == old(bots[..])[bi := old(bots[bi]).(
        Position := old(Relocation(mapTiles, Positions(bots[..botCount]), rand, 0)).value.0, FloodAttempts := 0)]
      ensures used == old(Relocation(mapTiles, Positions(bots[..botCount]), rand, 0)).value.1
      ensures redraws == old(redraws) + [old(bots[bi].Position)]
      ensures InMap(bots[bi].Position) && Vacant(mapTiles, old(Positions(bots[..botCount])), bots[bi].Position)
    {
      RelocationVacant(mapTiles, Positions(bots[..botCount]), rand, 0);
      var p;
      p, used := DrawVacant(rand);
      Relocate(bi, bots[bi].(Position := p, FloodAttempts := 0));
    }

    /**
     * The loop of GameRandomizeBot: draw a tile until it is neither the
     * base nor stone and no bot stands on it.
     */
    method DrawVacant(rand: seq<U8>) returns (p: Point, used: nat)
      requires Shape() && Relocation(mapTiles, Positions(bots[..botCount]), rand, 0).Some?
      ensures (p, used) == Relocation(mapTiles, Positions(bots[..botCount]), rand, 0).value
    {
      ghost var occupied := Positions(bots[..botCount]);
      ghost var goal := Relocation(mapTiles, occupied, rand, 0);
      p, used := Point(0, 0), 0;
      var vacant := false;
      while !vacant
        invariant used <= |rand|
        invariant !vacant ==> Relocation(mapTiles, occupied, rand, used) == goal
        invariant vacant ==> goal == Some((p, used))
        decreases |rand| - used
      {
        p, used, vacant := DrawStep(rand, used);
      }
    }

    /**
     * One pass of GameRandomizeBot's loop from stream position k, as a step
     * of Relocation: a vacant tile ends it, any other starts it over at next.
     */
    method DrawStep(rand: seq<U8>, k: nat) returns (p: Point, next: nat, vacant: bool)
      requires Shape() && Relocation(mapTiles, Positions(bots[..botCount]), rand, k).Some?
      ensures k < next <= |rand|
      ensures vacant ==> Relocation(mapTiles, Positions(bots[..botCount]), rand, k) == Some((p, next))
      ensures !vacant ==> Relocation(mapTiles, Positions(bots[..botCount]), rand, k) == Relocation(mapTiles, Positions(bots[..botCount]), rand, next)
    {
      ghost var occupied := Positions(bots[..botCount]);
      RelocationDraws(mapTiles, occupied, rand, k);
      ghost var ix;
      p, next, vacant, ix := DrawTile(rand, k);
      ghost var iy := next - 1;
      RelocationStep(mapTiles, occupied, rand, k, ix, iy);
      assert iy + 1 == next && Point(rand[ix], rand[iy]) == p;
    }

    /**
     * One pass of GameRandomizeBot's loop from stream position k: the tile
     * drawn (X at ix, Y just before next) and whether it is vacant.
     */
    method DrawTile(rand: seq<U8>, k: nat) returns (p: Point, next: nat, vacant: bool, ghost ix: nat)
      requires Shape() && DrawBelow(rand, k, MAP_WIDTH).Some?
      requires DrawBelow(rand, DrawBelow(rand, k, MAP_WIDTH).value + 1, MAP_HEIGHT).Some?
      ensures DrawBelow(rand, k, MAP_WIDTH) == Some(ix) && DrawBelow(rand, ix + 1, MAP_HEIGHT) == Some(next - 1)
      ensures p == Point(rand[ix], rand[next - 1]) && InMap(p)
      ensures vacant == Vacant(mapTiles, Positions(bots[..botCount]), p)
    {
      var randX, randY;
      randX, next := DrawByte(rand, k, MAP_WIDTH);
      ix := next - 1;
      randY, next := DrawByte(rand, next, MAP_HEIGHT);
      p := Point(randX, randY);
      if PointsEqual(p, BasePosition) || GetTile(mapTiles, p) == Stone {
        return p, next, false, ix;
      }
      var other := BotByPoint(p);
      if other.Some? {
        assert Positions(bots[..botCount])[other.value] == p;
        return p, next, false, ix;
      }
      return p, next, true, ix;
    }

    /**
     * The move of bot bi in GameStep: a greedy step (SimpleMove); failing
     * that, a path search (ComplexMove); failing both, CountFailure. The
     * bot ends as StepMove says, so it keeps its hit points and its
     * failed-search count stays within MAX_FLOOD_ATTEMPTS.
     */
    method Advance(bi: nat, longestAxis: (Point, Point) -> int, rand: seq<U8>) returns (simple: bool, complex: bool)
      requires Valid() && bi < botCount
      requires Relocation(mapTiles, Positions(bots[..botCount]), rand, 0).Some?
      modifies bots, visitedPoints, this`visitedPointsCount, this`redraws
      ensures Valid()
      ensures forall k :: 0 <= k < MAX_BOTS && k != bi ==> bots[k] == old(bots[k])
      ensures simple == old(SimpleMoveOutcome(mapTiles, bots[..botCount], towers[..towerCount], bots[bi])).0
      ensures complex <==> (!simple && old(bots[bi].FloodAttempts) < MAX_FLOOD_ATTEMPTS
        && old(Routed(mapTiles, towers[..towerCount], bots[bi].Position)).Some?)
      ensures bots[bi] == old(StepMove(mapTiles, bots[..botCount], towers[..towerCount], bots[bi],
        longestAxis(bots[bi].Position, BasePosition) >= BOT_ATTACK_DISTANCE,
        Relocation(mapTiles, Positions(bots[..botCount]), rand, 0).value.0))
      ensures bots[bi].HealthPoints == old(bots[bi].HealthPoints)
      ensures old(FloodBounded()) ==> FloodBounded()
    {
      complex := false;
      simple := SimpleMove(bi);
      if !simple {
        assert bots[..botCount] == old(bots[..botCount]);
        complex := Retry(bi, longestAxis, rand);
      }
    }

    /**
     * GameStep's move of bot bi after its greedy step failed: the path
     * search, then CountFailure when it does not move the bot. The bot ends
     * as SearchMove says.
     */
    method Retry(bi: nat, longestAxis: (Point, Point) -> int, rand: seq<U8>) returns (complex: bool)
      requires Valid() && bi < botCount
      requires Relocation(mapTiles, Positions(bots[..botCount]), rand, 0).Some?
      modifies bots, visitedPoints, this`visitedPointsCount, this`redraws
      ensures Valid()
      ensures forall k :: 0 <= k < MAX_BOTS && k != bi ==> bots[k] == old(bots[k])
      ensures complex <==> (old(bots[bi].FloodAttempts) < MAX_FLOOD_ATTEMPTS
        && old(Routed(mapTiles, towers[..towerCount], bots[bi].Position)).Some?)
      ensures bots[bi] == old(SearchMove(mapTiles, towers[..towerCount], bots[bi],
        longestAxis(bots[bi].Position, BasePosition) >= BOT_ATTACK_DISTANCE,
        Relocation(mapTiles, Positions(bots[..botCount]), rand, 0).value.0))
      ensures bots[bi].HealthPoints == old(bots[bi].HealthPoints)
      ensures old(FloodBounded()) ==> FloodBounded()
    {
      ghost var parents;
      complex, parents := ComplexMove(bi);
      if !complex {
        assert bots[..botCount] == old(bots[..botCount]);
        CountFailure(bi, longestAxis, rand);
      }
    }

    /**
     * The end of GameStep's move when both moves failed: the post-increment
     * of FloodAttempts, then the relocation of a bot that had failed
     * MAX_FLOOD_ATTEMPTS times and is far from the base, or the reset of a
     * near one to MAX_FLOOD_ATTEMPTS.
     */
    method CountFailure(bi: nat, longestAxis: (Point, Point) -> int, rand: seq<U8>)
      requires Valid() && bi < botCount
      requires Relocation(mapTiles, Positions(bots[..botCount]), rand, 0).Some?
      modifies bots, this`redraws
      ensures Valid()
      ensures forall k :: 0 <= k < MAX_BOTS && k != bi ==> bots[k] == old(bots[k])
      ensures old(bots[bi].FloodAttempts) < MAX_FLOOD_ATTEMPTS ==>
        bots[bi] == old(bots[bi]).(FloodAttempts := old(bots[bi].FloodAttempts) + 1)
      ensures old(bots[bi].FloodAttempts) >= MAX_FLOOD_ATTEMPTS && longestAxis(old(bots[bi].Position), BasePosition) >= BOT_ATTACK_DISTANCE ==>
        bots[bi] == old(bots[bi]).(
          Position := old(Relocation(mapTiles, Positions(bots[..botCount]), rand, 0)).value.0, FloodAttempts := 0)
      ensures old(bots[bi].FloodAttempts) >= MAX_FLOOD_ATTEMPTS && longestAxis(old(bots[bi].Position), BasePosition) < BOT_ATTACK_DISTANCE ==>
        bots[bi] == old(bots[bi]).(FloodAttempts := MAX_FLOOD_ATTEMPTS)
    {
      var attempts := bots[bi].FloodAttempts;
      bots[bi] := bots[bi].(FloodAttempts := (attempts + 1) % 256);
      if attempts >= MAX_FLOOD_ATTEMPTS {
        if longestAxis(bots[bi].Position, BasePosition) >= BOT_ATTACK_DISTANCE {
          assert Positions(bots[..botCount]) == old(Positions(bots[..botCount]));
          var _ := RandomizeBot(bi, rand);
        } else {
          bots[bi] := bots[bi].(FloodAttempts := MAX_FLOOD_ATTEMPTS);
        }
      }
    }

    /**
     * The spawning loop of GameStep: a new bot on each entry point in turn
     * while there is room, whether or not a bot already stands there.
     */
    method Spawn()
      requires Valid()
      modifies bots, this`botCount
      ensures Valid() && (old(FloodBounded()) ==> FloodBounded())
      ensures botCount == if old(botCount) + |EntryPoints| <= MAX_BOTS then old(botCount) + |EntryPoints| else MAX_BOTS
      ensures forall k :: 0 <= k < old(botCount) ==> bots[k] == old(bots[k])
      ensures forall k :: old(botCount) <= k < botCount ==>
        bots[k] == Bot(LevelHealthPoints[level], EntryPoints[k - old(botCount)], 0)
    {
      var i := 0;
      while i < |EntryPoints| && botCount < MAX_BOTS
        invariant Valid() && i <= |EntryPoints| && botCount == old(botCount) + i
        invariant forall k :: 0 <= k < old(botCount) ==> bots[k] == old(bots[k])
        invariant forall k :: old(botCount) <= k < botCount ==>
          bots[k] == Bot(LevelHealthPoints[level], EntryPoints[k - old(botCount)], 0)
      {
        NewBot(EntryPoints[i]);
        i := i + 1;
      }
    }

    /**
     * GameStep: the towers fire when the round-robin index is 0, the bot
     * at the index moves as StepMove says, the index advances modulo
     * botCount, and new bots are spawned. While there is no bot yet, as on
     * the first step of every game, only the spawning loop runs: the move
     * and the modulo need a bot. struck is the bots after the volley,
     * before the move. Every bot keeps at most MAX_FLOOD_ATTEMPTS failed
     * searches, so the uint8_t counter never wraps. distance and
     * longestAxis stand for PointDistance and PointLongestAxis.
     */
    method Step(distance: (Point, Point) -> int, longestAxis: (Point, Point) -> int, rand: seq<U8>) returns (ghost struck: seq<Bot>)
      requires Valid() && FloodBounded()
      requires botCount >= 1 ==> Relocation(mapTiles, Positions(bots[..botCount]), rand, 0).Some?
      modifies bots, visitedPoints, this`visitedPointsCount, this`redraws, this`stepIndex, this`botCount
      ensures Valid() && FloodBounded()
      ensures stepIndex == if old(stepIndex) + 1 < old(botCount) then old(stepIndex) + 1 else 0
      ensures botCount == if old(botCount) + |EntryPoints| <= MAX_BOTS then old(botCount) + |EntryPoints| else MAX_BOTS
      ensures struck == if old(stepIndex) == 0 then old(Volley(bots[..botCount], towers[..towerCount], towerCount, distance)).0 else old(bots[..botCount])
      ensures Positions(struck) == old(Positions(bots[..botCount]))
      ensures |struck| == old(botCount)
      ensures old(botCount) >= 1 ==> old(stepIndex) < old(botCount) && InMap(struck[old(stepIndex)].Position)
      ensures old(botCount) >= 1 ==> bots[old(stepIndex)] == StepMove(mapTiles, struck, towers[..towerCount], struck[old(stepIndex)],
        longestAxis(struck[old(stepIndex)].Position, BasePosition) >= BOT_ATTACK_DISTANCE,
        Relocation(mapTiles, Positions(struck), rand, 0).value.0)
      ensures forall k :: 0 <= k < old(botCount) && k != old(stepIndex) ==> bots[k] == struck[k]
      ensures forall k :: old(botCount) <= k < botCount ==>
        bots[k] == Bot(LevelHealthPoints[level], EntryPoints[k - old(botCount)], 0)
    {
      if botCount == 0 {
        struck := [];
        Spawn();
      } else {
        struck := Turn(distance, longestAxis, rand);
      }
    }

    /** GameStep once there is a bot: the volley and the move (Tick), then the index and the spawning loop (Rotate). */
    method Turn(distance: (Point, Point) -> int, longestAxis: (Point, Point) -> int, rand: seq<U8>) returns (ghost struck: seq<Bot>)
      requires Valid() && FloodBounded() && botCount >= 1
      requires Relocation(mapTiles, Positions(bots[..botCount]), rand, 0).Some?
      modifies bots, visitedPoints, this`visitedPointsCount, this`redraws, this`stepIndex, this`botCount
      ensures Valid() && FloodBounded()
      ensures stepIndex == if old(stepIndex) + 1 < old(botCount) then old(stepIndex) + 1 else 0
      ensures botCount == if old(botCount) + |EntryPoints| <= MAX_BOTS then old(botCount) + |EntryPoints| else MAX_BOTS
      ensures struck == if old(stepIndex) == 0 then old(Volley(bots[..botCount], towers[..towerCount], towerCount, distance)).0 else old(bots[..botCount])
      ensures Positions(struck) == old(Positions(bots[..botCount]))
      ensures |struck| == old(botCount) && old(stepIndex) < old(botCount) && InMap(struck[old(stepIndex)].Position)
      ensures bots[old(stepIndex)] == StepMove(mapTiles, struck, towers[..towerCount], struck[old(stepIndex)],
        longestAxis(struck[old(stepIndex)].Position, BasePosition) >= BOT_ATTACK_DISTANCE,
        Relocation(mapTiles, Positions(struck), rand, 0).value.0)
      ensures forall k :: 0 <= k < old(botCount) && k != old(stepIndex) ==> bots[k] == struck[k]
      ensures forall k :: old(botCount) <= k < botCount ==>
        bots[k] == Bot(LevelHealthPoints[level], EntryPoints[k - old(botCount)], 0)
    {
      ghost var spawnedFrom, index := botCount, stepIndex;
      struck := Tick(distance, longestAxis, rand);
      assert botCount == spawnedFrom && stepIndex == index;
      Rotate();
      forall k | old(botCount) <= k < botCount
        ensures bots[k] == Bot(LevelHealthPoints[level], EntryPoints[k - old(botCount)], 0)
      {
        assert spawnedFrom <= k && k - spawnedFrom == k - old(botCount);
      }
    }

    /** The end of GameStep: the index advances modulo botCount and new bots are spawned. */
    method Rotate()
      requires Valid() && FloodBounded() && botCount >= 1
      modifies bots, this`stepIndex, this`botCount
      ensures Valid() && FloodBounded()
      ensures stepIndex == if old(stepIndex) + 1 < old(botCount) then old(stepIndex) + 1 else 0
      ensures botCount == if old(botCount) + |EntryPoints| <= MAX_BOTS then old(botCount) + |EntryPoints| else MAX_BOTS
      ensures forall k :: 0 <= k < old(botCount) ==> bots[k] == old(bots[k])
      ensures forall k :: old(botCount) <= k < botCount ==>
        bots[k] == Bot(LevelHealthPoints[level], EntryPoints[k - old(botCount)], 0)
    {
      IndexWraps(stepIndex, botCount);
      stepIndex := (stepIndex + 1) % botCount;
      Spawn();
    }

    /**
     * The volley and the move of GameStep: the towers fire when the index
     * is 0, leaving the bots struck, then the bot at the index moves as
     * StepMove says.
     */
    method Tick(distance: (Point, Point) -> int, longestAxis: (Point, Point) -> int, rand: seq<U8>) returns (ghost struck: seq<Bot>)
      requires Valid() && FloodBounded() && botCount >= 1
      requires Relocation(mapTiles, Positions(bots[..botCount]), rand, 0).Some?
      modifies bots, visitedPoints, this`visitedPointsCount, this`redraws
      ensures Valid() && FloodBounded()
      ensures struck == if stepIndex == 0 then old(Volley(bots[..botCount], towers[..towerCount], towerCount, distance)).0 else old(bots[..botCount])
      ensures Positions(struck) == old(Positions(bots[..botCount]))
      ensures |struck| == botCount && stepIndex < botCount && InMap(struck[stepIndex].Position)
      ensures bots[stepIndex] == StepMove(mapTiles, struck, towers[..towerCount], struck[stepIndex],
        longestAxis(struck[stepIndex].Position, BasePosition) >= BOT_ATTACK_DISTANCE,
        Relocation(mapTiles, Positions(struck), rand, 0).value.0)
      ensures forall k :: 0 <= k < botCount && k != stepIndex ==> bots[k] == struck[k]
    {
      Strike(distance);
      struck := bots[..botCount];
      var simple, complex := Advance(stepIndex, longestAxis, rand);
    }

    /**
     * One received byte of GameParseInput. The decoder moves to the state
     * the escape-sequence grammar gives; a digit inside a size report goes
     * to its parameter slot; a completed report sets the window size,
     * resetting the view when the size changed, and clears the buffers;
     * the keys scroll the view, steer the cursor, build a tower under the
     * cursor or report the hit points of the bot there.
     */
    method ParseByte(b: U8, scan: (seq<U8>, nat) -> Option<int>) returns (feedback: Feedback)
      requires Valid() && ViewBounded()
      modifies this`csCount, params, this`viewPosition, this`cursorPosition, this`windowSize, towers, this`towerCount, this`gold
      ensures Valid() && ViewBounded()
      ensures csCount == ContinuedCount(old(csCount), b).GetOr(0)
      ensures cursorPosition == Steer(Classify(old(csCount), b), old(cursorPosition))
      ensures forall k :: 0 <= k < params.Length ==>
        params[k] == if Classify(old(csCount), b) == SizeReport then 0
                     else if ParamSlot(old(csCount), b) == Some(k) then b else old(params[k])
      ensures Classify(old(csCount), b) != SizeReport ==>
        viewPosition == Scroll(Classify(old(csCount), b), old(viewPosition), old(windowSize)) && windowSize == old(windowSize)
      ensures Classify(old(csCount), b) == SizeReport ==>
        && windowSize == ReportedSize(old(params[..]), scan)
        && viewPosition == if windowSize == old(windowSize) then old(viewPosition) else Point(0, 0)
      ensures feedback == match Classify(old(csCount), b)
        case Build => BuildFeedback(old(BuildOutcome()))
        case Inspect => Inspection(old(bots[..botCount]), old(cursorPosition))
        case _ => NoFeedback
      ensures towerCount == old(towerCount) + (if feedback == BuildFeedback(TowerBuilt) then 1 else 0)
      ensures towers[..towerCount] == old(towers[..towerCount]) + (if feedback == BuildFeedback(TowerBuilt) then [Tower(cursorPosition, 1)] else [])
      ensures gold == old(gold) - (if feedback == BuildFeedback(TowerBuilt) then TOWER_BUILD_COST else 0)
      ensures forall k :: towerCount <= k < MAX_TOWERS ==> towers[k] == old(towers[k])
      ensures forall k :: 0 <= k < old(towerCount) ==> towers[k] == old(towers[k])
      ensures feedback.BuildFeedback? ==> b == 'b' as int
      ensures feedback.InspectFeedback? ==> b == ' ' as int
    {
      var action := Classify(csCount, b);
      if action in {Continue, SizeReport, Reset} {
        Sequence(b, scan);
        feedback := NoFeedback;
      } else {
        feedback := Key(action);
      }
    }

    /**
     * One pass of GameParseInput's loop, as the loop needs it: the decoder
     * advances, the reply answers its key, and a tower built is paid for.
     */
    method Consume(b: U8, scan: (seq<U8>, nat) -> Option<int>) returns (reply: Feedback)
      requires Valid() && ViewBounded()
      modifies this`csCount, params, this`viewPosition, this`cursorPosition, this`windowSize, towers, this`towerCount, this`gold
      ensures Valid() && ViewBounded()
      ensures csCount == ContinuedCount(old(csCount), b).GetOr(0)
      ensures KeyOf(reply, b)
      ensures old(towerCount) <= towerCount
      ensures towers[..old(towerCount)] == old(towers[..towerCount])
      ensures gold == old(gold) - TOWER_BUILD_COST * (towerCount - old(towerCount))
    {
      reply := ParseByte(b, scan);
      assert towers[..old(towerCount)] == old(towers[..towerCount])[..old(towerCount)];
    }

    /** A build report answers the 'b' key, an inspection the space bar. */
    static predicate KeyOf(reply: Feedback, b: U8)
    {
      && (reply.BuildFeedback? ==> b == 'b' as int)
      && (reply.InspectFeedback? ==> b == ' ' as int)
    }

    /**
     * GameParseInput: the received bytes, one at a time, with what the
     * build and inspect keys report. The decoder ends in the state the
     * grammar gives for the whole run, the view stays within scrolling
     * range, towers are only added, and each costs TOWER_BUILD_COST gold.
     */
    method ParseInput(input: seq<U8>, scan: (seq<U8>, nat) -> Option<int>) returns (feedback: seq<Feedback>)
      requires Valid() && ViewBounded()
      modifies this`csCount, params, this`viewPosition, this`cursorPosition, this`windowSize, towers, this`towerCount, this`gold
      ensures Valid() && ViewBounded()
      ensures csCount == DecoderState(old(csCount), input)
      ensures |feedback| == |input|
      ensures forall k :: 0 <= k < |input| && feedback[k].BuildFeedback? ==> input[k] == 'b' as int
      ensures forall k :: 0 <= k < |input| && feedback[k].InspectFeedback? ==> input[k] == ' ' as int
      ensures old(towerCount) <= towerCount
      ensures forall k :: 0 <= k < old(towerCount) ==> towers[k] == old(towers[k])
      ensures gold == old(gold) - TOWER_BUILD_COST * (towerCount - old(towerCount))
    {
      feedback := [];
      for i := 0 to |input|
        invariant Valid() && ViewBounded()
        invariant csCount == DecoderState(old(csCount), input[..i])
        invariant |feedback| == i
        invariant forall k :: 0 <= k < i ==> KeyOf(feedback[k], input[k])
        invariant old(towerCount) <= towerCount
        invariant towers[..old(towerCount)] == old(towers[..towerCount])
        invariant gold == old(gold) - TOWER_BUILD_COST * (towerCount - old(towerCount))
      {
        var reply := Consume(input[i], scan);
        feedback := feedback + [reply];
        DecoderStateStep(old(csCount), input, i);
      }
      assert input[..|input|] == input;
      forall k | 0 <= k < old(towerCount)
        ensures towers[k] == old(towers[k])
      {
        assert towers[..old(towerCount)][k] == old(towers[..towerCount])[k];
      }
    }

    /** The bytes that continue, complete or break an escape sequence. */
    method Sequence(b: U8, scan: (seq<U8>, nat) -> Option<int>)
      requires Valid() && ViewBounded() && Classify(csCount, b) in {Continue, SizeReport, Reset}
      modifies this`csCount, params, this`viewPosition, this`windowSize
      ensures Valid() && ViewBounded()
      ensures csCount == ContinuedCount(old(csCount), b).GetOr(0)
      ensures forall k :: 0 <= k < params.Length ==>
        params[k] == if Classify(old(csCount), b) == SizeReport then 0
                     else if ParamSlot(old(csCount), b) == Some(k) then b else old(params[k])
      ensures Classify(old(csCount), b) != SizeReport ==> viewPosition == old(viewPosition) && windowSize == old(windowSize)
      ensures Classify(old(csCount), b) == SizeReport ==>
        && windowSize == ReportedSize(old(params[..]), scan)
        && viewPosition == if windowSize == old(windowSize) then old(viewPosition) else Point(0, 0)
    {
      if ContinuedCount(csCount, b).Some? {
        Proceed(b);
      } else if CompletesSizeReport(csCount, b) {
        ApplySizeReport(scan);
      } else {
        csCount := 0;
      }
    }

    /**
     * The keys: the arrows after ESC '[' scroll the view and end the
     * sequence; w/s/a/d steer the cursor, b builds and space inspects.
     */
    method Key(action: KeyAction) returns (feedback: Feedback)
      requires Valid() && ViewBounded() && action !in {Continue, SizeReport, Reset}
      requires action in {ViewDown, ViewUp, ViewLeft, ViewRight} ==> csCount == 2
      requires action !in {ViewDown, ViewUp, ViewLeft, ViewRight} ==> csCount == 0
      modifies this`csCount, this`viewPosition, this`cursorPosition, towers, this`towerCount, this`gold
      ensures Valid() && ViewBounded() && csCount == 0
      ensures cursorPosition == Steer(action, old(cursorPosition))
      ensures viewPosition == Scroll(action, old(viewPosition), windowSize)
      ensures feedback == match action
        case Build => BuildFeedback(old(BuildOutcome()))
        case Inspect => Inspection(bots[..botCount], old(cursorPosition))
        case _ => NoFeedback
      ensures towerCount == old(towerCount) + (if feedback == BuildFeedback(TowerBuilt) then 1 else 0)
      ensures towers[..towerCount] == old(towers[..towerCount]) + (if feedback == BuildFeedback(TowerBuilt) then [Tower(cursorPosition, 1)] else [])
      ensures gold == old(gold) - (if feedback == BuildFeedback(TowerBuilt) then TOWER_BUILD_COST else 0)
      ensures forall k :: towerCount <= k < MAX_TOWERS ==> towers[k] == old(towers[k])
      ensures forall k :: 0 <= k < old(towerCount) ==> towers[k] == old(towers[k])
    {
      if action == Build || action == Inspect {
        feedback := Command(action);
      } else {
        Move(action);
        feedback := NoFeedback;
      }
    }

    /** The b key builds a tower under the cursor; the space key reports the hit points of the bot there. */
    method Command(action: KeyAction) returns (feedback: Feedback)
      requires Valid() && (action == Build || action == Inspect)
      modifies towers, this`towerCount, this`gold
      ensures Valid()
      ensures feedback == if action == Build then BuildFeedback(old(BuildOutcome())) else Inspection(bots[..botCount], cursorPosition)
      ensures towerCount == old(towerCount) + (if feedback == BuildFeedback(TowerBuilt) then 1 else 0)
      ensures towers[..towerCount] == old(towers[..towerCount]) + (if feedback == BuildFeedback(TowerBuilt) then [Tower(cursorPosition, 1)] else [])
      ensures gold == old(gold) - (if feedback == BuildFeedback(TowerBuilt) then TOWER_BUILD_COST else 0)
      ensures forall k :: towerCount <= k < MAX_TOWERS ==> towers[k] == old(towers[k])
      ensures forall k :: 0 <= k < old(towerCount) ==> towers[k] == old(towers[k])
    {
      if action == Build {
        var status := NewTower();
        feedback := BuildFeedback(status);
      } else {
        var bot := BotByPoint(cursorPosition);
        feedback := if bot.Some? then InspectFeedback(bots[bot.value].HealthPoints) else NoFeedback;
      }
    }

    /** The arrow keys scroll the view and end the sequence; w/s/a/d steer the cursor. */
    method Move(action: KeyAction)
      requires Valid() && ViewBounded() && action !in {Continue, SizeReport, Reset, Build, Inspect}
      requires action in {ViewDown, ViewUp, ViewLeft, ViewRight} ==> csCount == 2
      requires action !in {ViewDown, ViewUp, ViewLeft, ViewRight} ==> csCount == 0
      modifies this`csCount, this`viewPosition, this`cursorPosition
      ensures Valid() && ViewBounded() && csCount == 0
      ensures cursorPosition == Steer(action, old(cursorPosition))
      ensures viewPosition == Scroll(action, old(viewPosition), windowSize)
    {
      match action
      case ViewDown => viewPosition := Scroll(action, viewPosition, windowSize); csCount := 0;
      case ViewUp => viewPosition := Scroll(action, viewPosition, windowSize); csCount := 0;
      case ViewLeft => viewPosition := Scroll(action, viewPosition, windowSize); csCount := 0;
      case ViewRight => viewPosition := Scroll(action, viewPosition, windowSize); csCount := 0;
      case CursorUp => cursorPosition := Steer(action, cursorPosition);
      case CursorDown => cursorPosition := Steer(action, cursorPosition);
      case CursorRight => cursorPosition := Steer(action, cursorPosition);
      case CursorLeft => cursorPosition := Steer(action, cursorPosition);
    }

    /** A byte that continues an escape sequence; a parameter digit is stored in its slot. */
    method Proceed(b: U8)
      requires Valid() && ContinuedCount(csCount, b).Some?
      modifies this`csCount, params
      ensures Valid()
      ensures csCount == old(ContinuedCount(csCount, b)).value
      ensures forall k :: 0 <= k < params.Length ==>
        params[k] == if old(ParamSlot(csCount, b)) == Some(k) then b else old(params[k])
    {
      if IsDigit(b) && 4 <= csCount < 9 {
        params[csCount - 4] := b;
        csCount := csCount + 1;
      } else if IsDigit(b) && 10 <= csCount < 15 {
        params[PARAM_BUF_LEN + csCount - 10] := b;
        csCount := csCount + 1;
      } else if b == ';' as int && 5 <= csCount < 10 {
        csCount := 10;
      } else {
        csCount := csCount + 1;
      }
    }

    /**
     * The 't' that completes a window-size report: both extents are read
     * from the parameter buffers (the terminal's defaults where nothing
     * converts) and clamped to 255; a changed size resets the view to the
     * map's corner; the buffers are cleared and the decoder restarts.
     */
    method ApplySizeReport(scan: (seq<U8>, nat) -> Option<int>)
      requires Valid() && ViewBounded()
      modifies this`csCount, params, this`viewPosition, this`windowSize
      ensures Valid() && ViewBounded()
      ensures csCount == 0
      ensures windowSize == ReportedSize(old(params[..]), scan)
      ensures viewPosition == if windowSize == old(windowSize) then old(viewPosition) else Point(0, 0)
      ensures forall k :: 0 <= k < params.Length ==> params[k] == 0
    {
      var height := ReportedExtent(scan(params[..], 0), TERMINAL_DEF_HEIGHT);
      var width := ReportedExtent(scan(params[..], PARAM_BUF_LEN), TERMINAL_DEF_WIDTH);
      if !SizesEqual(windowSize, Size(width, height)) {
        viewPosition := Point(0, 0);
        windowSize := Size(width, height);
      }
      for k := 0 to params.Length
        invariant forall j :: 0 <= j < k ==> params[j] == 0
        modifies params
      {
        params[k] := 0;
      }
      csCount := 0;
    }

    /** The volley of GameStep, fired when the round-robin index is 0. */
    method Strike(distance: (Point, Point) -> int)
      requires Valid() && FloodBounded()
      modifies bots, this`redraws
      ensures Valid() && FloodBounded()
      ensures bots[..botCount] == if stepIndex == 0 then old(Volley(bots[..botCount], towers[..towerCount], towerCount, distance)).0 else old(bots[..botCount])
      ensures Positions(bots[..botCount]) == old(Positions(bots[..botCount]))
      ensures forall k :: botCount <= k < MAX_BOTS ==> bots[k] == old(bots[k])
    {
      if stepIndex == 0 {
        ghost var bs := bots[..botCount];
        FireTowers(distance);
        VolleyOnlyWounds(bs, towers[..towerCount], towerCount, distance);
        VolleyKeepsPlaces(bs, towers[..towerCount], towerCount, distance);
        forall k | 0 <= k < botCount
          ensures bots[k].FloodAttempts <= MAX_FLOOD_ATTEMPTS
        {
          assert bots[k] == bots[..botCount][k];
        }
      }
    }
  }

  /**
   * The first GameStep of a game as Game.c:786-840 is written: the
   * power-on table holds no bot, so the move acts on slot 0, a zeroed slot
   * no bot occupies, and `i %= botCount` divides by zero. Engine.Step runs
   * only the spawning loop in that state.
   */
  method PowerOnStep(mapTiles: seq<U8>) returns (count: nat, phantom: Bot, index: Option<nat>)
    requires |mapTiles| >= MAP_MEMORY
    ensures count == 0 && phantom == Bot(0, Point(0, 0), 0) && index.None?
  {
    var e := new Engine(mapTiles);
    count := e.botCount;
    phantom := e.bots[e.stepIndex];
    index := NextIndex(e.stepIndex, e.botCount);
  }
}
