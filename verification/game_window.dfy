/**
 * The older engine of Game/GameWindow.c: the same bots, map and input
 * decoder as Game/Game.c, without towers. Its wave-propagation pool holds
 * 150 entries and checks only the North and West neighbours for
 * duplicates; its step keeps a round-robin index that reaches botCount,
 * counts failed searches differently and spawns only on free entry points.
 * GameGetTile is the same code as Game.c's (Tiles.GetTile); GameSimpleMove
 * and GameMoveBot are Game.c's with no tower to check, so their outcome is
 * Game.SimpleMoveOutcome / Game.MoveOutcome over an empty tower list.
 */
module GameWindow {
  import opened Size
  import opened Point
  import opened Wrappers
  import opened Tiles
  import opened GameDefs
  import Game

  /** GameWindow.c's base tile. */
  const BasePosition: Point := Point(51, 31)

  /** GameWindow.c's three entry points. */
  const EntryPoints: seq<Point> := [Point(23, 0), Point(107, 0), Point(0, 15)]

  /** The capacity of GameWindow.c's pool. */
  const VISITED_POINTS_COUNT: nat := 150

  /**
   * The byte GameNewBot reads as a new bot's hit points: the first byte of
   * levels[level], which is the low byte of the two-byte, little-endian
   * LevelName address, not the HealthPoints field.
   */
  function LevelHead(nameAddress: nat): (r: U8)
    ensures r == nameAddress % 0x100
  {
    nameAddress % 0x100
  }

  /**
   * A new bot gets the level's 10 hit points only when the level name
   * happens to sit at an address whose low byte is 10.
   */
  lemma LevelHeadIsNotHealth(nameAddress: nat)
    ensures LevelHead(nameAddress) == Game.LevelHealthPoints[0] <==> nameAddress % 0x100 == 10
    ensures LevelHead(0x100) == 0
  {
  }

  /** The round-robin index after a step: it wraps only once it has reached botCount. */
  function NextBotStep(botStep: nat, botCount: nat): (r: nat)
    ensures r <= botCount
    ensures r == 0 || r == botStep + 1
  {
    if botStep >= botCount then 0 else botStep + 1
  }

  /**
   * With a full bot table the index reaches MAX_BOTS, one past the last
   * slot, and the next step indexes bots[MAX_BOTS].
   */
  lemma BotStepPassesTable()
    ensures NextBotStep(MAX_BOTS - 1, MAX_BOTS) == MAX_BOTS
  {
  }

  /** The neighbours GameComplexMove looks up in the pool before storing them. */
  predicate Deduplicated(d: Direction)
  {
    d == North || d == West
  }

  /**
   * The test GameComplexMove puts to the neighbour of from in direction d:
   * the step must succeed, stay on the map (checked for East and South), and
   * reach a tile that is not stone and, for North and West only, not in the
   * pool vs yet.
   */
  function Admit(mapTiles: seq<U8>, vs: seq<VisitedPoint>, from: Point, d: Direction): (q: Option<Point>)
    requires |mapTiles| >= MAP_BYTES && InMap(from)
    ensures q.Some? ==> q == TryAddDirection(from, d) && InMap(q.value) && GetTile(mapTiles, q.value) != Stone
    ensures q.Some? <==>
      && TryAddDirection(from, d).Some?
      && InMap(TryAddDirection(from, d).value)
      && GetTile(mapTiles, TryAddDirection(from, d).value) != Stone
      && (Deduplicated(d) ==> Game.Unpooled(vs, TryAddDirection(from, d).value))
  {
    match TryAddDirection(from, d)
    case None => None
    case Some(p) =>
      if (d == East && p.X >= MAP_WIDTH) || (d == South && p.Y >= MAP_HEIGHT) then None
      else if GetTile(mapTiles, p) == Stone then None
      else if Deduplicated(d) && !Game.Unpooled(vs, p) then None
      else Some(p)
  }

  /**
   * One neighbour check of the flood loop on the pool vs: the admitted
   * neighbour of entry i in direction d is stored one heavier than the entry
   * unless the pool is full; storing the base is reported with its index.
   */
  function Expand(mapTiles: seq<U8>, vs: seq<VisitedPoint>, i: nat, d: Direction): (r: (Expansion, seq<VisitedPoint>))
    requires |mapTiles| >= MAP_BYTES && i < |vs| && Game.AllInMap(vs)
    ensures Game.AllInMap(r.1) && |vs| <= |r.1| <= |vs| + 1
    ensures |vs| <= VISITED_POINTS_COUNT ==> |r.1| <= VISITED_POINTS_COUNT
  {
    match Admit(mapTiles, vs, vs[i].Position, d)
    case None => (Skipped, vs)
    case Some(p) =>
      if |vs| >= VISITED_POINTS_COUNT then (PoolFull, vs)
      else
        var vs' := vs + [VisitedPoint(p, Game.NextWeight(vs[i].Weight))];
        if p == BasePosition then (ReachedBase(|vs|), vs') else (Stored, vs')
  }

  /**
   * What a neighbour check does to the pool: nothing unless the neighbour is
   * admitted and the pool has room; otherwise the admitted neighbour is
   * appended, and the base is reported exactly when it is the base.
   */
  lemma ExpandStores(mapTiles: seq<U8>, vs: seq<VisitedPoint>, i: nat, d: Direction)
    requires |mapTiles| >= MAP_BYTES && i < |vs| && Game.AllInMap(vs)
    ensures var r := Expand(mapTiles, vs, i, d);
      && r.1[..|vs|] == vs
      && (r.0 == PoolFull ==> |vs| >= VISITED_POINTS_COUNT && r.1 == vs)
      && (r.0 == Skipped ==> r.1 == vs)
      && (r.0 == Stored || r.0.ReachedBase? ==>
            && Admit(mapTiles, vs, vs[i].Position, d).Some?
            && r.1 == vs + [VisitedPoint(Admit(mapTiles, vs, vs[i].Position, d).value, Game.NextWeight(vs[i].Weight))])
      && (r.0.ReachedBase? <==> r.0 == ReachedBase(|vs|) && |r.1| == |vs| + 1 && r.1[|vs|].Position == BasePosition)
  {
    var r := Expand(mapTiles, vs, i, d);
    if |r.1| > |vs| {
      assert r.1[..|vs|] == vs;
    }
  }

  /**
   * The neighbour checks Compass[n], Compass[n + 1], ... of entry i, up to
   * the check that ends the loop or the West check.
   */
  function Pass(mapTiles: seq<U8>, vs: seq<VisitedPoint>, i: nat, n: nat): (r: (Expansion, seq<VisitedPoint>))
    requires |mapTiles| >= MAP_BYTES && Game.AllInMap(vs) && i < |vs| && n < 4
    ensures Game.AllInMap(r.1) && |vs| <= |r.1|
    ensures |vs| <= VISITED_POINTS_COUNT ==> |r.1| <= VISITED_POINTS_COUNT
    decreases 4 - n
  {
    var a := Expand(mapTiles, vs, i, Game.Compass[n]);
    if Game.Ends(a.0) || n == 3 then a else Pass(mapTiles, a.1, i, n + 1)
  }

  /** A pass only appends to the pool; a reported base is an entry it stored. */
  lemma {:induction false} PassGrows(mapTiles: seq<U8>, vs: seq<VisitedPoint>, i: nat, n: nat)
    requires |mapTiles| >= MAP_BYTES && Game.AllInMap(vs) && i < |vs| && n < 4
    ensures Pass(mapTiles, vs, i, n).1[..|vs|] == vs
    ensures Pass(mapTiles, vs, i, n).0.ReachedBase? ==>
      && |vs| <= Pass(mapTiles, vs, i, n).0.index < |Pass(mapTiles, vs, i, n).1|
      && Pass(mapTiles, vs, i, n).1[Pass(mapTiles, vs, i, n).0.index].Position == BasePosition
    decreases 4 - n
  {
    var a := Expand(mapTiles, vs, i, Game.Compass[n]);
    ExpandStores(mapTiles, vs, i, Game.Compass[n]);
    if !Game.Ends(a.0) && n < 3 {
      PassGrows(mapTiles, a.1, i, n + 1);
      var p := Pass(mapTiles, a.1, i, n + 1);
      assert p.1[..|vs|] == p.1[..|a.1|][..|vs|];
    }
  }

  /**
   * The flood loop on the pool vs from entry i on: the index of the stored
   * base, or nothing when the pool fills up or every entry has been
   * expanded; and the pool afterwards.
   */
  function Wave(mapTiles: seq<U8>, vs: seq<VisitedPoint>, i: nat): (Option<nat>, seq<VisitedPoint>)
    requires |mapTiles| >= MAP_BYTES && Game.AllInMap(vs) && i <= |vs| <= VISITED_POINTS_COUNT
    decreases VISITED_POINTS_COUNT - i
  {
    if i == |vs| then (None, vs)
    else
      var p := Pass(mapTiles, vs, i, 0);
      if Game.Ends(p.0) then (Game.Outcome(p.0), p.1) else Wave(mapTiles, p.1, i + 1)
  }

  /** One entry of the flood loop: the pass over it ends the loop or the loop goes on. */
  lemma WaveUnfolds(mapTiles: seq<U8>, vs: seq<VisitedPoint>, i: nat)
    requires |mapTiles| >= MAP_BYTES && Game.AllInMap(vs) && i < |vs| <= VISITED_POINTS_COUNT
    ensures Game.Ends(Pass(mapTiles, vs, i, 0).0) ==>
      Wave(mapTiles, vs, i) == (Game.Outcome(Pass(mapTiles, vs, i, 0).0), Pass(mapTiles, vs, i, 0).1)
    ensures !Game.Ends(Pass(mapTiles, vs, i, 0).0) ==>
      Wave(mapTiles, vs, i) == Wave(mapTiles, Pass(mapTiles, vs, i, 0).1, i + 1)
  {
  }

  /**
   * The flood loop only appends to the pool, never beyond its 150 entries,
   * and keeps every entry on the map; a reported index is where the base
   * was stored.
   */
  lemma {:induction false} WaveGrows(mapTiles: seq<U8>, vs: seq<VisitedPoint>, i: nat)
    requires |mapTiles| >= MAP_BYTES && Game.AllInMap(vs) && i <= |vs| <= VISITED_POINTS_COUNT
    ensures Game.AllInMap(Wave(mapTiles, vs, i).1)
    ensures |vs| <= |Wave(mapTiles, vs, i).1| <= VISITED_POINTS_COUNT
    ensures Wave(mapTiles, vs, i).1[..|vs|] == vs
    ensures Wave(mapTiles, vs, i).0.Some? ==>
      && |vs| <= Wave(mapTiles, vs, i).0.value < |Wave(mapTiles, vs, i).1|
      && Wave(mapTiles, vs, i).1[Wave(mapTiles, vs, i).0.value].Position == BasePosition
    decreases VISITED_POINTS_COUNT - i
  {
    if i < |vs| {
      WaveUnfolds(mapTiles, vs, i);
      PassGrows(mapTiles, vs, i, 0);
      var p := Pass(mapTiles, vs, i, 0);
      if !Game.Ends(p.0) {
        WaveGrows(mapTiles, p.1, i + 1);
        var w := Wave(mapTiles, p.1, i + 1);
        assert w.1[..|vs|] == w.1[..|p.1|][..|vs|];
      }
    }
  }

  /** The flood of GameComplexMove from start: the pool restarts with start at weight 0. */
  function Search(mapTiles: seq<U8>, start: Point): (r: (Option<nat>, seq<VisitedPoint>))
    requires |mapTiles| >= MAP_BYTES && InMap(start)
    ensures 1 <= |r.1| <= VISITED_POINTS_COUNT && r.1[0] == VisitedPoint(start, 0)
    ensures r.0.Some? ==> 1 <= r.0.value < |r.1| && r.1[r.0.value].Position == BasePosition
  {
    WaveGrows(mapTiles, [VisitedPoint(start, 0)], 0);
    var r := Wave(mapTiles, [VisitedPoint(start, 0)], 0);
    assert r.1[0] == r.1[..1][0];
    r
  }

  /**
   * The East and South neighbours are stored without a pool lookup, so on
   * an open map the pool can hold a tile twice: expanding (1, 1) East
   * stores (2, 1) although the pool holds it already.
   */
  lemma PoolRepeats()
    ensures var mapTiles := seq(MAP_BYTES, _ => 0);
      var vs := [VisitedPoint(Point(1, 1), 0), VisitedPoint(Point(2, 1), 1)];
      Expand(mapTiles, vs, 0, East).1 == vs + [VisitedPoint(Point(2, 1), 1)]
  {
    var mapTiles: seq<U8> := seq(MAP_BYTES, _ => 0);
    assert mapTiles[TileNumber(Point(2, 1)) / 4] == 0;
  }

  /**
   * What pool entry j must satisfy: it lies on the map, and is either the
   * start at weight 0 (entry 0) or a tile that is not stone next to an
   * earlier entry, its parent, and one heavier than that parent. Unlike
   * Game.c's pool, positions may repeat and weights need not grow.
   */
  ghost predicate Linked(vs: seq<VisitedPoint>, parents: seq<nat>, start: Point, mapTiles: seq<U8>, j: nat)
    requires j < |vs| == |parents| && |mapTiles| >= MAP_BYTES
  {
    && InMap(vs[j].Position) && vs[j].Weight <= j
    && (j == 0 ==> vs[j] == VisitedPoint(start, 0))
    && (j >= 1 ==>
          && parents[j] < j && vs[j].Weight == vs[parents[j]].Weight + 1
          && Adjacent(vs[parents[j]].Position, vs[j].Position)
          && GetTile(mapTiles, vs[j].Position) != Stone)
  }

  /** The pool GameComplexMove grows from start: every entry is linked to an earlier one. */
  ghost predicate Grown(vs: seq<VisitedPoint>, parents: seq<nat>, start: Point, mapTiles: seq<U8>)
  {
    && |mapTiles| >= MAP_BYTES && 1 <= |vs| == |parents|
    && forall j :: 0 <= j < |vs| ==> Linked(vs, parents, start, mapTiles, j)
  }

  /** A neighbour check keeps the pool grown from start. */
  lemma {:induction false} ExpandGrown(mapTiles: seq<U8>, vs: seq<VisitedPoint>, parents: seq<nat>, start: Point, i: nat, d: Direction)
    returns (parents': seq<nat>)
    requires Grown(vs, parents, start, mapTiles) && i < |vs| <= VISITED_POINTS_COUNT
    requires Game.AllInMap(vs)
    ensures Grown(Expand(mapTiles, vs, i, d).1, parents', start, mapTiles)
  {
    var r := Expand(mapTiles, vs, i, d);
    ExpandStores(mapTiles, vs, i, d);
    if r.0 == Skipped || r.0 == PoolFull {
      parents' := parents;
    } else {
      var p := Admit(mapTiles, vs, vs[i].Position, d).value;
      assert Linked(vs, parents, start, mapTiles, i);
      var vs' := vs + [VisitedPoint(p, vs[i].Weight + 1)];
      assert r.1 == vs';
      parents' := parents + [i];
      forall j | 0 <= j < |vs'|
        ensures Linked(vs', parents', start, mapTiles, j)
      {
        if j < |vs| {
          assert Linked(vs, parents, start, mapTiles, j);
          assert vs'[j] == vs[j] && parents'[j] == parents[j];
        }
      }
    }
  }

  /** A pass over entry i keeps the pool grown from start. */
  lemma {:induction false} PassGrown(mapTiles: seq<U8>, vs: seq<VisitedPoint>, parents: seq<nat>, start: Point, i: nat, n: nat)
    returns (parents': seq<nat>)
    requires Grown(vs, parents, start, mapTiles) && Game.AllInMap(vs) && i < |vs| <= VISITED_POINTS_COUNT && n < 4
    ensures Grown(Pass(mapTiles, vs, i, n).1, parents', start, mapTiles)
    decreases 4 - n
  {
    var a := Expand(mapTiles, vs, i, Game.Compass[n]);
    var ps := ExpandGrown(mapTiles, vs, parents, start, i, Game.Compass[n]);
    if Game.Ends(a.0) || n == 3 {
      parents' := ps;
    } else {
      ExpandStores(mapTiles, vs, i, Game.Compass[n]);
      parents' := PassGrown(mapTiles, a.1, ps, start, i, n + 1);
    }
  }

  /** The flood loop from entry i keeps the pool grown from start. */
  lemma {:induction false} WaveGrown(mapTiles: seq<U8>, vs: seq<VisitedPoint>, parents: seq<nat>, start: Point, i: nat)
    returns (parents': seq<nat>)
    requires Grown(vs, parents, start, mapTiles) && Game.AllInMap(vs) && i <= |vs| <= VISITED_POINTS_COUNT
    ensures Grown(Wave(mapTiles, vs, i).1, parents', start, mapTiles)
    decreases VISITED_POINTS_COUNT - i
  {
    if i == |vs| {
      parents' := parents;
    } else {
      var p := Pass(mapTiles, vs, i, 0);
      var ps := PassGrown(mapTiles, vs, parents, start, i, 0);
      if Game.Ends(p.0) {
        assert Wave(mapTiles, vs, i).1 == p.1;
        parents' := ps;
      } else {
        parents' := WaveGrown(mapTiles, p.1, ps, start, i + 1);
        assert Wave(mapTiles, vs, i) == Wave(mapTiles, p.1, i + 1);
      }
    }
  }

  /** The pool the flood leaves behind is grown from start. */
  lemma SearchGrown(mapTiles: seq<U8>, start: Point) returns (parents: seq<nat>)
    requires |mapTiles| >= MAP_BYTES && InMap(start)
    ensures Grown(Search(mapTiles, start).1, parents, start, mapTiles)
  {
    parents := WaveGrown(mapTiles, [VisitedPoint(start, 0)], [0], start, 0);
  }

  /**
   * In a grown pool only the start has weight 0, so a successful retrace
   * from any other entry ends on a four-neighbour of the start that is on
   * the map and not stone.
   */
  lemma {:induction false} RetraceReachesStart(vs: seq<VisitedPoint>, parents: seq<nat>, start: Point, mapTiles: seq<U8>, j: nat)
    requires Grown(vs, parents, start, mapTiles)
    requires 1 <= j < |vs| && Retrace(vs, j).Some?
    ensures var k := Retrace(vs, j).value;
      && Adjacent(start, vs[k].Position) && InMap(vs[k].Position) && GetTile(mapTiles, vs[k].Position) != Stone
  {
    assert Linked(vs, parents, start, mapTiles, j);
    var k := Retrace(vs, j).value;
    assert vs[k].Weight == 1;
    assert Linked(vs, parents, start, mapTiles, k);
    assert Linked(vs, parents, start, mapTiles, parents[k]);
    assert Linked(vs, parents, start, mapTiles, 0);
  }

  /**
   * The tile GameComplexMove's path search leads a bot at start to: the
   * flood's base entry walked back to weight 1. None when the flood does not
   * reach the base (or fills the pool) and when the walk back fails.
   */
  function Routed(mapTiles: seq<U8>, start: Point): Option<Point>
    requires |mapTiles| >= MAP_BYTES && InMap(start)
  {
    var s := Search(mapTiles, start);
    if s.0.None? then None
    else
      var k := Retrace(s.1, s.0.value);
      if k.None? then None else Some(s.1[k.value].Position)
  }

  /** A tile the path search leads to is a non-stone four-neighbour of the start on the map. */
  lemma RoutedNextToStart(mapTiles: seq<U8>, start: Point)
    requires |mapTiles| >= MAP_BYTES && InMap(start)
    ensures Routed(mapTiles, start).Some? ==>
      && Adjacent(start, Routed(mapTiles, start).value) && InMap(Routed(mapTiles, start).value)
      && GetTile(mapTiles, Routed(mapTiles, start).value) != Stone
  {
    var s := Search(mapTiles, start);
    if s.0.Some? && Retrace(s.1, s.0.value).Some? {
      var parents := SearchGrown(mapTiles, start);
      RetraceReachesStart(s.1, parents, start, mapTiles, s.0.value);
    }
  }

  /**
   * GameStep's move of bot b once its greedy step has failed. Below
   * MAX_FLOOD_ATTEMPTS the path search runs, and when it leads to a tile b
   * takes it and its count restarts. Otherwise the count goes up by one,
   * wrapping like uint8_t. When it is then MAX_FLOOD_ATTEMPTS or more and b
   * is far from the base, b is relocated to spot with its count restarted.
   */
  function SearchMove(mapTiles: seq<U8>, b: Bot, far: bool, spot: Point): Bot
    requires |mapTiles| >= MAP_BYTES && InMap(b.Position)
  {
    if b.FloodAttempts < MAX_FLOOD_ATTEMPTS && Routed(mapTiles, b.Position).Some? then
      b.(Position := Routed(mapTiles, b.Position).value, FloodAttempts := 0)
    else AfterFailure(b, far, spot)
  }

  /** The failure count of SearchMove: one more, as uint8_t, and the relocation it may trigger. */
  function AfterFailure(b: Bot, far: bool, spot: Point): Bot
  {
    var n := (b.FloodAttempts + 1) % 0x100;
    if n >= MAX_FLOOD_ATTEMPTS && far then b.(Position := spot, FloodAttempts := 0)
    else b.(FloodAttempts := n)
  }

  /**
   * GameStep's move of bot b among the bots bs: the greedy step when it
   * succeeds, otherwise SearchMove.
   */
  function StepMove(mapTiles: seq<U8>, bs: seq<Bot>, b: Bot, far: bool, spot: Point): Bot
    requires |mapTiles| >= MAP_BYTES && InMap(b.Position)
  {
    var s := Game.SimpleMoveOutcome(mapTiles, bs, [], b);
    if s.0 then s.1 else SearchMove(mapTiles, b, far, spot)
  }

  /**
   * GameStep's move keeps the bot's hit points. The bot stays, steps onto a
   * non-stone four-neighbour on the map, or is relocated to spot with its
   * count restarted.
   */
  lemma StepMoveKeeps(mapTiles: seq<U8>, bs: seq<Bot>, b: Bot, far: bool, spot: Point)
    requires |mapTiles| >= MAP_BYTES && InMap(b.Position)
    ensures var r := StepMove(mapTiles, bs, b, far, spot);
      && r.HealthPoints == b.HealthPoints
      && (|| r.Position == b.Position
          || (Adjacent(b.Position, r.Position) && InMap(r.Position) && GetTile(mapTiles, r.Position) != Stone)
          || (r.Position == spot && r.FloodAttempts == 0))
  {
    RoutedNextToStart(mapTiles, b.Position);
  }

  /**
   * The w/s/a/d keys of GameWindow.c: as in Game.c, except that 'd' stops
   * at the last column, MAP_WIDTH - 1; 's' still lets the cursor reach row
   * MAP_HEIGHT, one past the map.
   */
  function Steer(a: KeyAction, cursor: Point): (r: Point)
    ensures cursor.X < MAP_WIDTH && cursor.Y <= MAP_HEIGHT ==> r.X < MAP_WIDTH && r.Y <= MAP_HEIGHT
    ensures a == CursorRight ==> r.Y == cursor.Y && (r.X == cursor.X + 1 <==> cursor.X < MAP_WIDTH - 1)
    ensures a != CursorRight ==> r == Game.Steer(a, cursor)
  {
    if a == CursorRight then
      if cursor.X < MAP_WIDTH - 1 then cursor.(X := cursor.X + 1) else cursor
    else Game.Steer(a, cursor)
  }

  /** The cursor stays in the map's columns but can still step below its last row. */
  lemma SteerStopsAtLastColumn()
    ensures Steer(CursorRight, Point(MAP_WIDTH - 1, 0)) == Point(MAP_WIDTH - 1, 0)
    ensures InMap(Point(0, MAP_HEIGHT - 1)) && !InMap(Steer(CursorDown, Point(0, MAP_HEIGHT - 1)))
  {
  }

  /**
   * The entry points GameStep's spawning loop fills, from EntryPoints[i] on,
   * while room slots remain: each gets a new bot unless an active bot, one
   * just spawned included, stands on it.
   */
  function Arrivals(occupied: seq<Point>, i: nat, room: nat): (r: seq<Point>)
    requires i <= |EntryPoints|
    ensures |r| <= room && |r| <= |EntryPoints| - i
    decreases |EntryPoints| - i
  {
    if i == |EntryPoints| || room == 0 then []
    else if EntryPoints[i] in occupied then Arrivals(occupied, i + 1, room)
    else [EntryPoints[i]] + Arrivals(occupied + [EntryPoints[i]], i + 1, room - 1)
  }

  /**
   * Every new bot stands on an entry point from EntryPoints[i] on where no
   * bot stood, and no two new bots share one.
   */
  lemma {:induction false} ArrivalsFresh(occupied: seq<Point>, i: nat, room: nat)
    requires i <= |EntryPoints|
    ensures var r := Arrivals(occupied, i, room);
      && (forall k :: 0 <= k < |r| ==> r[k] in EntryPoints[i..] && r[k] !in occupied)
      && (forall j, k :: 0 <= j < k < |r| ==> r[j] != r[k])
    decreases |EntryPoints| - i
  {
    if i < |EntryPoints| && room > 0 {
      var e := EntryPoints[i];
      if e in occupied {
        ArrivalsFresh(occupied, i + 1, room);
      } else {
        ArrivalsFresh(occupied + [e], i + 1, room - 1);
      }
    }
  }

  /**
   * With room for every remaining entry point, the spawning loop leaves a
   * bot on each of them.
   */
  lemma {:induction false} ArrivalsCoverEntries(occupied: seq<Point>, i: nat, room: nat)
    requires i <= |EntryPoints| && room >= |EntryPoints| - i
    ensures forall k :: i <= k < |EntryPoints| ==> EntryPoints[k] in occupied + Arrivals(occupied, i, room)
    decreases |EntryPoints| - i
  {
    if i < |EntryPoints| {
      var e := EntryPoints[i];
      if e in occupied {
        ArrivalsCoverEntries(occupied, i + 1, room);
      } else {
        ArrivalsCoverEntries(occupied + [e], i + 1, room - 1);
        assert occupied + Arrivals(occupied, i, room) == (occupied + [e]) + Arrivals(occupied + [e], i + 1, room - 1);
      }
    }
  }

  /** One entry point of the spawning loop: a free one is taken, an occupied one skipped. */
  lemma ArrivalsStep(occupied: seq<Point>, i: nat, room: nat)
    requires i < |EntryPoints| && room > 0
    ensures EntryPoints[i] in occupied ==> Arrivals(occupied, i, room) == Arrivals(occupied, i + 1, room)
    ensures EntryPoints[i] !in occupied ==>
      Arrivals(occupied, i, room) == [EntryPoints[i]] + Arrivals(occupied + [EntryPoints[i]], i + 1, room - 1)
  {
  }

  /**
   * The bot table bs after the slots from n on have been taken by new bots
   * on the tiles ps with hp hit points; each keeps its slot's flood count.
   */
  function Enlist(bs: seq<Bot>, n: nat, ps: seq<Point>, hp: U8): (r: seq<Bot>)
    requires n + |ps| <= |bs|
    ensures |r| == |bs|
    decreases |ps|
  {
    if |ps| == 0 then bs
    else Enlist(bs[n := bs[n].(HealthPoints := hp, Position := ps[0])], n + 1, ps[1..], hp)
  }

  /** Enlist changes exactly the slots n .. n + |ps| - 1, each onto its tile. */
  lemma {:induction false} EnlistSlots(bs: seq<Bot>, n: nat, ps: seq<Point>, hp: U8)
    requires n + |ps| <= |bs|
    ensures forall k :: 0 <= k < |bs| ==>
      Enlist(bs, n, ps, hp)[k] == if n <= k < n + |ps| then bs[k].(HealthPoints := hp, Position := ps[k - n]) else bs[k]
    decreases |ps|
  {
    if |ps| > 0 {
      EnlistSlots(bs[n := bs[n].(HealthPoints := hp, Position := ps[0])], n + 1, ps[1..], hp);
    }
  }

  /**
   * The spawning loop of GameStep run from entry point i on, with count active
   * bots in the table bs: the table and the bot count it leaves.
   */
  function Spawned(bs: seq<Bot>, count: nat, i: nat, hp: U8): (r: (seq<Bot>, nat))
    requires |bs| == MAX_BOTS && count <= MAX_BOTS && i <= |EntryPoints|
    ensures |r.0| == MAX_BOTS && count <= r.1 <= MAX_BOTS
    decreases |EntryPoints| - i
  {
    if i == |EntryPoints| || count == MAX_BOTS then (bs, count)
    else if EntryPoints[i] in Game.Positions(bs[..count]) then Spawned(bs, count, i + 1, hp)
    else Spawned(bs[count := bs[count].(HealthPoints := hp, Position := EntryPoints[i])], count + 1, i + 1, hp)
  }

  /** One pass of the spawning loop: an occupied entry point is skipped, a free one taken. */
  lemma SpawnedStep(bs: seq<Bot>, count: nat, i: nat, hp: U8)
    requires |bs| == MAX_BOTS && count < MAX_BOTS && i < |EntryPoints|
    ensures EntryPoints[i] in Game.Positions(bs[..count]) ==> Spawned(bs, count, i, hp) == Spawned(bs, count, i + 1, hp)
    ensures EntryPoints[i] !in Game.Positions(bs[..count]) ==>
      Spawned(bs, count, i, hp) == Spawned(bs[count := bs[count].(HealthPoints := hp, Position := EntryPoints[i])], count + 1, i + 1, hp)
  {
  }

  /**
   * The spawning loop takes, in order, the entry points no active bot stands
   * on, as far as the table has room: new bots on Arrivals, in the slots
   * after the active ones.
   */
  lemma SpawnedEnlists(bs: seq<Bot>, count: nat, i: nat, hp: U8)
    requires |bs| == MAX_BOTS && count <= MAX_BOTS && i <= |EntryPoints|
    ensures Spawned(bs, count, i, hp).1 == count + |Arrivals(Game.Positions(bs[..count]), i, MAX_BOTS - count)|
    ensures Spawned(bs, count, i, hp).0 == Enlist(bs, count, Arrivals(Game.Positions(bs[..count]), i, MAX_BOTS - count), hp)
  {
    SpawnedCount(bs, count, i, hp);
    SpawnedTable(bs, count, i, hp);
  }

  /** The bot count the spawning loop leaves: one more for each arrival. */
  lemma {:induction false} SpawnedCount(bs: seq<Bot>, count: nat, i: nat, hp: U8)
    requires |bs| == MAX_BOTS && count <= MAX_BOTS && i <= |EntryPoints|
    ensures Spawned(bs, count, i, hp).1 == count + |Arrivals(Game.Positions(bs[..count]), i, MAX_BOTS - count)|
    decreases |EntryPoints| - i
  {
    if i < |EntryPoints| && count < MAX_BOTS {
      var active := Game.Positions(bs[..count]);
      var e := EntryPoints[i];
      ArrivalsStep(active, i, MAX_BOTS - count);
      SpawnedStep(bs, count, i, hp);
      if e in active {
        SpawnedCount(bs, count, i + 1, hp);
      } else {
        var bs' := bs[count := bs[count].(HealthPoints := hp, Position := e)];
        SpawnedJoins(bs, count, e, hp);
        SpawnedCount(bs', count + 1, i + 1, hp);
      }
    }
  }

  /** The table the spawning loop leaves: the arrivals enlisted after the active bots. */
  lemma {:induction false} SpawnedTable(bs: seq<Bot>, count: nat, i: nat, hp: U8)
    requires |bs| == MAX_BOTS && count <= MAX_BOTS && i <= |EntryPoints|
    ensures Spawned(bs, count, i, hp).0 == Enlist(bs, count, Arrivals(Game.Positions(bs[..count]), i, MAX_BOTS - count), hp)
    decreases |EntryPoints| - i
  {
    if i < |EntryPoints| && count < MAX_BOTS {
      var active := Game.Positions(bs[..count]);
      var e := EntryPoints[i];
      ArrivalsStep(active, i, MAX_BOTS - count);
      SpawnedStep(bs, count, i, hp);
      if e in active {
        SpawnedTable(bs, count, i + 1, hp);
      } else {
        var bs' := bs[count := bs[count].(HealthPoints := hp, Position := e)];
        SpawnedJoins(bs, count, e, hp);
        SpawnedTable(bs', count + 1, i + 1, hp);
        var rest := Arrivals(active + [e], i + 1, MAX_BOTS - count - 1);
        assert ([e] + rest)[1..] == rest;
      }
    }
  }

  /** A bot spawned on e in slot count extends the active tiles by e. */
  lemma SpawnedJoins(bs: seq<Bot>, count: nat, e: Point, hp: U8)
    requires count < |bs|
    ensures Game.Positions(bs[count := bs[count].(HealthPoints := hp, Position := e)][..count + 1]) == Game.Positions(bs[..count]) + [e]
  {
    var bs' := bs[count := bs[count].(HealthPoints := hp, Position := e)];
    assert bs'[..count] == bs[..count];
  }

  /**
   * What the spawning loop leaves in the table: the slots from count on,
   * up to the new count, hold new bots with hp hit points on entry points;
   * every other slot is as it was.
   */
  lemma SpawnedSlots(bs: seq<Bot>, count: nat, hp: U8)
    requires |bs| == MAX_BOTS && count <= MAX_BOTS
    ensures forall k :: 0 <= k < MAX_BOTS && !(count <= k < Spawned(bs, count, 0, hp).1) ==>
      Spawned(bs, count, 0, hp).0[k] == bs[k]
    ensures forall k :: count <= k < Spawned(bs, count, 0, hp).1 ==>
      && Spawned(bs, count, 0, hp).0[k] == bs[k].(HealthPoints := hp, Position := Spawned(bs, count, 0, hp).0[k].Position)
      && Spawned(bs, count, 0, hp).0[k].Position in EntryPoints
  {
    var arrivals := Arrivals(Game.Positions(bs[..count]), 0, MAX_BOTS - count);
    SpawnedEnlists(bs, count, 0, hp);
    EnlistSlots(bs, count, arrivals, hp);
    ArrivalsFresh(Game.Positions(bs[..count]), 0, MAX_BOTS - count);
  }

  /** No new bot lands on a tile that the bot of an earlier slot stands on. */
  lemma SpawnedApart(bs: seq<Bot>, count: nat, hp: U8)
    requires |bs| == MAX_BOTS && count <= MAX_BOTS
    ensures forall j, k :: 0 <= j < k && count <= k < Spawned(bs, count, 0, hp).1 ==>
      Spawned(bs, count, 0, hp).0[j].Position != Spawned(bs, count, 0, hp).0[k].Position
  {
    var active := Game.Positions(bs[..count]);
    var arrivals := Arrivals(active, 0, MAX_BOTS - count);
    var t := Spawned(bs, count, 0, hp).0;
    SpawnedEnlists(bs, count, 0, hp);
    EnlistSlots(bs, count, arrivals, hp);
    ArrivalsFresh(active, 0, MAX_BOTS - count);
    forall j, k | 0 <= j < k && count <= k < Spawned(bs, count, 0, hp).1
      ensures t[j].Position != t[k].Position
    {
      if j < count {
        assert t[j].Position == active[j];
      }
    }
  }

  /** The tiles of the active bots after Enlist: the old ones, then ps. */
  lemma EnlistPositions(bs: seq<Bot>, n: nat, ps: seq<Point>, hp: U8)
    requires n + |ps| <= |bs|
    ensures Game.Positions(Enlist(bs, n, ps, hp)[..n + |ps|]) == Game.Positions(bs[..n]) + ps
  {
    EnlistSlots(bs, n, ps, hp);
    var t := Enlist(bs, n, ps, hp);
    var lhs := Game.Positions(t[..n + |ps|]);
    var rhs := Game.Positions(bs[..n]) + ps;
    forall j | 0 <= j < n + |ps|
      ensures lhs[j] == rhs[j]
    {
      assert lhs[j] == t[j].Position;
    }
  }

  /** With room for all of them, every entry point has an active bot after the spawning loop. */
  lemma SpawnedCovers(bs: seq<Bot>, count: nat, hp: U8)
    requires |bs| == MAX_BOTS && count + |EntryPoints| <= MAX_BOTS
    ensures forall k :: 0 <= k < |EntryPoints| ==>
      EntryPoints[k] in Game.Positions(Spawned(bs, count, 0, hp).0[..Spawned(bs, count, 0, hp).1])
  {
    var active := Game.Positions(bs[..count]);
    var arrivals := Arrivals(active, 0, MAX_BOTS - count);
    var t := Spawned(bs, count, 0, hp).0;
    var c := Spawned(bs, count, 0, hp).1;
    SpawnedEnlists(bs, count, 0, hp);
    EnlistPositions(bs, count, arrivals, hp);
    assert t[..c] == Enlist(bs, count, arrivals, hp)[..count + |arrivals|];
    ArrivalsCoverEntries(active, 0, MAX_BOTS - count);
  }

  /** The globals of GameWindow.c. */
  class Engine {
    const mapTiles: seq<U8>
    /** The byte GameNewBot reads from levels[level]: see LevelHead. */
    const levelHead: U8
    var windowSize: Size
    var viewPosition: Point
    var cursorPosition: Point
    /** The round-robin index of GameStep; it may equal botCount. */
    var botStep: nat
    var botCount: nat
    const bots: array<Bot>
    var visitedPointsCount: nat
    const visitedPoints: array<VisitedPoint>
    /** GameParseInput's static decoder state and parameter buffers, end to end. */
    var csCount: nat
    const params: array<U8>

    /** The sizes of the map and the tables, and the current counts. */
    ghost predicate Counted()
      reads this`botCount, this`botStep
    {
      && |mapTiles| >= MAP_BYTES
      && bots.Length == MAX_BOTS && visitedPoints.Length == VISITED_POINTS_COUNT
      && params.Length == PARAM_COUNT * PARAM_BUF_LEN
      && botCount <= MAX_BOTS && botStep <= botCount
    }

    ghost predicate Shape()
      reads this`botCount, this`botStep, this`cursorPosition, this`csCount
    {
      Counted() && cursorPosition.X < MAP_WIDTH && cursorPosition.Y <= MAP_HEIGHT && csCount <= 15
    }

    /**
     * Every bot slot stands on the map: the slot at botCount, past the active
     * bots, is moved by GameStep when botStep reaches it.
     */
    ghost predicate BotsPlaced()
      reads bots
    {
      bots.Length == MAX_BOTS && forall k :: 0 <= k < MAX_BOTS ==> InMap(bots[k].Position)
    }

    /** What the pool operations rely on: the map and a bounded pool. */
    ghost predicate PoolReady()
      reads this`visitedPointsCount
    {
      && |mapTiles| >= MAP_BYTES
      && visitedPoints.Length == VISITED_POINTS_COUNT && visitedPointsCount <= VISITED_POINTS_COUNT
    }

    ghost predicate Valid()
      reads this, bots
    {
      Shape() && PoolReady() && BotsPlaced()
    }

    /** The view is within scrolling range of the window size. */
    ghost predicate ViewBounded()
      reads this`viewPosition, this`windowSize
    {
      Game.ViewInRange(viewPosition, windowSize)
    }

    /** The power-on state; nameAddress is where the level's name string lies. */
    constructor (mapTiles: seq<U8>, nameAddress: nat)
      requires |mapTiles| >= MAP_BYTES
      ensures Valid() && ViewBounded()
      ensures this.mapTiles == mapTiles && levelHead == LevelHead(nameAddress)
      ensures windowSize == Size(TERMINAL_DEF_WIDTH, TERMINAL_DEF_HEIGHT)
      ensures viewPosition == Point(0, 0) && cursorPosition == Point(0, 0)
      ensures botStep == 0 && botCount == 0 && visitedPointsCount == 0 && csCount == 0
      ensures forall k :: 0 <= k < MAX_BOTS ==> bots[k] == Bot(0, Point(0, 0), 0)
      ensures forall k :: 0 <= k < params.Length ==> params[k] == 0
    {
      this.mapTiles := mapTiles;
      levelHead := LevelHead(nameAddress);
      windowSize := Size(TERMINAL_DEF_WIDTH, TERMINAL_DEF_HEIGHT);
      viewPosition := Point(0, 0);
      cursorPosition := Point(0, 0);
      botStep := 0;
      botCount := 0;
      bots := new Bot[MAX_BOTS](_ => Bot(0, Point(0, 0), 0));
      visitedPointsCount := 0;
      visitedPoints := new VisitedPoint[VISITED_POINTS_COUNT](_ => VisitedPoint(Point(0, 0), 0));
      csCount := 0;
      params := new U8[PARAM_COUNT * PARAM_BUF_LEN](_ => 0);
    }

    /** GameBotAtLocation: whether an active bot stands on p. */
    method BotAtLocation(p: Point) returns (r: bool)
      requires Counted()
      ensures r <==> p in Game.Positions(bots[..botCount])
    {
      var i := 0;
      while i < botCount
        invariant i <= botCount
        invariant forall k :: 0 <= k < i ==> bots[k].Position != p
      {
        if PointsEqual(bots[i].Position, p) {
          assert Game.Positions(bots[..botCount])[i] == p;
          return true;
        }
        i := i + 1;
      }
      return false;
    }

    /**
     * GameNewBot: while there is room, the slot at botCount becomes active on
     * p with levelHead hit points; it keeps the flood count the slot held.
     */
    method NewBot(p: Point)
      requires Valid() && InMap(p)
      modifies bots, this`botCount
      ensures Valid()
      ensures old(botCount) < MAX_BOTS ==>
        && botCount == old(botCount) + 1
        && bots[..] == old(bots[..])[old(botCount) := old(bots[botCount]).(HealthPoints := levelHead, Position := p)]
      ensures old(botCount) >= MAX_BOTS ==> botCount == old(botCount) && bots[..] == old(bots[..])
    {
      if botCount < MAX_BOTS {
        bots[botCount] := bots[botCount].(HealthPoints := levelHead, Position := p);
        botCount := botCount + 1;
      }
    }

    /**
     * The tests of GameMoveBot, in its order, for bot b stepping in
     * direction d: the verdict, and the tile b moves to when it moves.
     */
    method MoveVerdict(b: Bot, d: Direction) returns (ok: bool, target: Option<Point>)
      requires Valid() && InMap(b.Position)
      ensures target.Some? ==> InMap(target.value) && target.value != b.Position
      ensures (ok, if target.Some? then b.(Position := target.value) else b)
        == Game.MoveOutcome(mapTiles, bots[..botCount], [], b, d)
    {
      var step := TryAddDirection(b.Position, d);
      if step.None? || step.value.X >= MAP_WIDTH || step.value.Y >= MAP_HEIGHT
        || GetTile(mapTiles, step.value) == Stone
      {
        return false, None;
      }
      if PointsEqual(step.value, BasePosition) {
        return true, None;
      }
      var other := BotAtLocation(step.value);
      if other {
        return b.FloodAttempts >= MAX_FLOOD_ATTEMPTS, None;
      }
      return true, step;
    }

    /** GameMoveBot on the bot in slot bi; no tower stands in its way. */
    method MoveBot(bi: nat, d: Direction) returns (ok: bool)
      requires Valid() && bi < MAX_BOTS
      modifies bots
      ensures Valid()
      ensures (ok, bots[bi]) == Game.MoveOutcome(mapTiles, old(bots[..botCount]), [], old(bots[bi]), d)
      ensures forall k :: 0 <= k < MAX_BOTS && k != bi ==> bots[k] == old(bots[k])
    {
      var target;
      ok, target := MoveVerdict(bots[bi], d);
      if target.Some? {
        bots[bi] := bots[bi].(Position := target.value);
      }
    }

    /** GameSimpleMove on the bot in slot bi. */
    method SimpleMove(bi: nat) returns (moved: bool)
      requires Valid() && bi < MAX_BOTS
      modifies bots
      ensures Valid()
      ensures (moved, bots[bi]) == Game.SimpleMoveOutcome(mapTiles, old(bots[..botCount]), [], old(bots[bi]))
      ensures forall k :: 0 <= k < MAX_BOTS && k != bi ==> bots[k] == old(bots[k])
      ensures !moved ==> bots[bi] == old(bots[bi])
    {
      var dirs := Game.SimpleMoveDirections(bots[bi].Position);
      moved := MoveBot(bi, dirs.0);
      if !moved {
        assert bots[..botCount] == old(bots[..botCount]);
        moved := MoveBot(bi, dirs.1);
      }
    }

    /** VisitedPointsFull: whether a store would be refused. */
    method VisitedPointsFull() returns (full: bool)
      requires PoolReady()
      ensures full <==> visitedPointsCount == VISITED_POINTS_COUNT
    {
      full := visitedPointsCount >= VISITED_POINTS_COUNT;
    }

    /** VisitedPointStore: append (p, weight) while the pool has room. */
    method VisitedPointStore(p: Point, weight: U8) returns (r: Option<nat>)
      requires PoolReady()
      modifies visitedPoints, this`visitedPointsCount
      ensures PoolReady()
      ensures r.Some? <==> old(visitedPointsCount) < VISITED_POINTS_COUNT
      ensures r.Some? ==> r.value == old(visitedPointsCount) && visitedPointsCount == r.value + 1
      ensures r.Some? ==> visitedPoints[..] == old(visitedPoints[..])[r.value := VisitedPoint(p, weight)]
      ensures r.None? ==> visitedPointsCount == old(visitedPointsCount) && visitedPoints[..] == old(visitedPoints[..])
    {
      if visitedPointsCount < VISITED_POINTS_COUNT {
        visitedPoints[visitedPointsCount] := VisitedPoint(p, weight);
        r := Some(visitedPointsCount);
        visitedPointsCount := visitedPointsCount + 1;
      } else {
        r := None;
      }
    }

    /** VisitedPointsClear: empty the pool. */
    method VisitedPointsClear()
      requires PoolReady()
      modifies this`visitedPointsCount
      ensures PoolReady() && visitedPointsCount == 0
    {
      visitedPointsCount := 0;
    }

    /** VisitedPointByPoint: the first pool entry for p. */
    method VisitedPointByPoint(p: Point) returns (r: Option<nat>)
      requires PoolReady()
      ensures r == FindAt(visitedPoints[..visitedPointsCount], VisitedPosition, p)
    {
      var i := 0;
      while i < visitedPointsCount
        invariant i <= visitedPointsCount
        invariant forall k :: 0 <= k < i ==> visitedPoints[k].Position != p
      {
        if PointsEqual(visitedPoints[i].Position, p) {
          return Some(i);
        }
        i := i + 1;
      }
      return None;
    }

    /** One probe of VisitedPointByPointWeight: the entry for q, if it has weight w. */
    method ProbeAt(q: Option<Point>, w: U8) returns (r: Option<nat>)
      requires PoolReady()
      ensures r == Probe(visitedPoints[..visitedPointsCount], q, w)
    {
      r := None;
      if q.Some? {
        var found := VisitedPointByPoint(q.value);
        if found.Some? && visitedPoints[found.value].Weight == w {
          r := found;
        }
      }
    }

    /**
     * VisitedPointByPointWeight over the filled part of the pool, with the
     * same negated East test as Game.c's.
     */
    method VisitedPointByPointWeight(p: Point, w: U8) returns (r: Option<nat>)
      requires PoolReady()
      ensures r == BacktrackStep(visitedPoints[..visitedPointsCount], p, w)
    {
      r := ProbeAt(TryAddDirection(p, North), w);
      if r.Some? {
        return;
      }
      r := ProbeAt(if TryAddDirection(p, East).None? then Some(p) else None, w);
      if r.Some? {
        return;
      }
      r := ProbeAt(TryAddDirection(p, South), w);
      if r.Some? {
        return;
      }
      r := ProbeAt(TryAddDirection(p, West), w);
    }

    /** The tests in GameComplexMove's loop for the neighbour of from in direction d. */
    method Candidate(from: Point, d: Direction) returns (q: Option<Point>)
      requires PoolReady() && InMap(from)
      ensures q == Admit(mapTiles, visitedPoints[..visitedPointsCount], from, d)
    {
      var step := TryAddDirection(from, d);
      if step.None? || (d == East && step.value.X >= MAP_WIDTH) || (d == South && step.value.Y >= MAP_HEIGHT) {
        return None;
      }
      var p := step.value;
      if GetTile(mapTiles, p) == Stone {
        return None;
      }
      if d == North || d == West {
        var seen := VisitedPointByPoint(p);
        if seen.Some? {
          return None;
        }
      }
      return step;
    }

    /** One of the four neighbour checks in GameComplexMove's flood loop. */
    method ExpandNeighbor(i: nat, d: Direction) returns (st: Expansion)
      requires PoolReady() && i < visitedPointsCount
      requires Game.AllInMap(visitedPoints[..visitedPointsCount])
      modifies visitedPoints, this`visitedPointsCount
      ensures PoolReady()
      ensures (st, visitedPoints[..visitedPointsCount]) == Expand(mapTiles, old(visitedPoints[..visitedPointsCount]), i, d)
    {
      ghost var vs := visitedPoints[..visitedPointsCount];
      var vp := visitedPoints[i];
      var next := Candidate(vp.Position, d);
      if next.None? {
        return Skipped;
      }
      var p := next.value;
      var stored := VisitedPointStore(p, Game.NextWeight(vp.Weight));
      if stored.None? {
        assert visitedPoints[..visitedPointsCount] == vs;
        return PoolFull;
      }
      assert visitedPoints[..visitedPointsCount] == vs + [VisitedPoint(p, Game.NextWeight(vp.Weight))];
      st := if PointsEqual(p, BasePosition) then ReachedBase(stored.value) else Stored;
    }

    /**
     * Two neighbour checks of the flood loop, Compass[n] and Compass[n + 1],
     * the second unless the first ends the loop.
     */
    method ExpandPair(i: nat, n: nat) returns (st: Expansion)
      requires PoolReady() && i < visitedPointsCount && (n == 0 || n == 2)
      requires Game.AllInMap(visitedPoints[..visitedPointsCount])
      modifies visitedPoints, this`visitedPointsCount
      ensures PoolReady() && Game.AllInMap(visitedPoints[..visitedPointsCount])
      ensures old(visitedPointsCount) <= visitedPointsCount
      ensures Game.Ends(st) || n == 2 ==>
        Pass(mapTiles, old(visitedPoints[..visitedPointsCount]), i, n) == (st, visitedPoints[..visitedPointsCount])
      ensures !Game.Ends(st) && n == 0 ==>
        Pass(mapTiles, old(visitedPoints[..visitedPointsCount]), i, 0) == Pass(mapTiles, visitedPoints[..visitedPointsCount], i, 2)
    {
      st := ExpandNeighbor(i, Game.Compass[n]);
      if !Game.Ends(st) {
        st := ExpandNeighbor(i, Game.Compass[n + 1]);
      }
    }

    /**
     * One pass of the flood loop over entry i: the flood from entry i either
     * ends with the pass's outcome or goes on from entry i + 1.
     */
    method ExpandEntry(i: nat, ghost goal: (Option<nat>, seq<VisitedPoint>)) returns (st: Expansion)
      requires PoolReady() && i < visitedPointsCount
      requires Game.AllInMap(visitedPoints[..visitedPointsCount])
      requires Wave(mapTiles, visitedPoints[..visitedPointsCount], i) == goal
      modifies visitedPoints, this`visitedPointsCount
      ensures PoolReady() && Game.AllInMap(visitedPoints[..visitedPointsCount])
      ensures i < visitedPointsCount
      ensures Game.Ends(st) ==> goal == (Game.Outcome(st), visitedPoints[..visitedPointsCount])
      ensures !Game.Ends(st) ==> Wave(mapTiles, visitedPoints[..visitedPointsCount], i + 1) == goal
    {
      WaveUnfolds(mapTiles, visitedPoints[..visitedPointsCount], i);
      st := ExpandPair(i, 0);
      if !Game.Ends(st) {
        st := ExpandPair(i, 2);
      }
    }

    /** The flood loop of GameComplexMove on the pool as it stands, from its first entry. */
    method Spread() returns (destination: Option<nat>)
      requires PoolReady() && Game.AllInMap(visitedPoints[..visitedPointsCount])
      modifies visitedPoints, this`visitedPointsCount
      ensures PoolReady() && (destination, visitedPoints[..visitedPointsCount]) == Wave(mapTiles, old(visitedPoints[..visitedPointsCount]), 0)
    {
      ghost var goal := Wave(mapTiles, visitedPoints[..visitedPointsCount], 0);
      var i := 0;
      while i < visitedPointsCount
        invariant PoolReady() && i <= visitedPointsCount
        invariant Game.AllInMap(visitedPoints[..visitedPointsCount])
        invariant Wave(mapTiles, visitedPoints[..visitedPointsCount], i) == goal
        decreases VISITED_POINTS_COUNT - i
      {
        var st := ExpandEntry(i, goal);
        if Game.Ends(st) {
          return Game.Outcome(st);
        }
        i := i + 1;
      }
      destination := None;
    }

    /**
     * The first half of GameComplexMove: the pool restarts with start at
     * weight 0 and grows until the base is stored, the pool is full or every
     * entry has been expanded.
     */
    method Flood(start: Point) returns (destination: Option<nat>)
      requires PoolReady() && InMap(start)
      modifies visitedPoints, this`visitedPointsCount
      ensures PoolReady()
      ensures (destination, visitedPoints[..visitedPointsCount]) == Search(mapTiles, start)
    {
      VisitedPointsClear();
      var _ := VisitedPointStore(start, 0);
      assert visitedPoints[..visitedPointsCount] == [VisitedPoint(start, 0)];
      destination := Spread();
    }

    /**
     * The second half of GameComplexMove: from the stored base, step to a
     * lighter neighbour until weight 1 is reached.
     */
    method Backtrack(destination: nat) returns (r: Option<nat>)
      requires PoolReady() && destination < visitedPointsCount
      ensures r == Retrace(visitedPoints[..visitedPointsCount], destination)
    {
      ghost var goal := Retrace(visitedPoints[..visitedPointsCount], destination);
      r := Some(destination);
      while r.Some? && visitedPoints[r.value].Weight > 1
        invariant r.Some? ==> r.value < visitedPointsCount && Retrace(visitedPoints[..visitedPointsCount], r.value) == goal
        invariant r.None? ==> goal.None?
        decreases if r.Some? then visitedPoints[r.value].Weight as int else 0
      {
        r := BacktrackFrom(r.value, goal);
      }
    }

    /** One step of Backtrack: the lighter neighbour of entry j, on the same walk. */
    method BacktrackFrom(j: nat, ghost goal: Option<nat>) returns (next: Option<nat>)
      requires PoolReady() && j < visitedPointsCount && visitedPoints[j].Weight > 1
      requires Retrace(visitedPoints[..visitedPointsCount], j) == goal
      ensures next.Some? ==> next.value < visitedPointsCount && visitedPoints[next.value].Weight < visitedPoints[j].Weight
      ensures next.Some? ==> Retrace(visitedPoints[..visitedPointsCount], next.value) == goal
      ensures next.None? ==> goal.None?
    {
      ghost var vs := visitedPoints[..visitedPointsCount];
      var vp := visitedPoints[j];
      assert vp == vs[j];
      next := VisitedPointByPointWeight(vp.Position, vp.Weight - 1);
      RetraceStep(vs, j, next);
      assert next.Some? ==> vs[next.value] == visitedPoints[next.value];
    }

    /**
     * The path search of GameComplexMove from start: the flood, then the
     * backtrack from the stored base; the tile the walk ends on lies next to
     * start.
     */
    method Route(start: Point) returns (next: Option<Point>, ghost parents: seq<nat>, ghost destination: nat)
      requires PoolReady() && InMap(start)
      modifies visitedPoints, this`visitedPointsCount
      ensures PoolReady()
      ensures Grown(visitedPoints[..visitedPointsCount], parents, start, mapTiles)
      ensures visitedPoints[..visitedPointsCount] == Search(mapTiles, start).1
      ensures next == Routed(mapTiles, start)
      ensures next.Some? ==>
        && 1 <= destination < visitedPointsCount
        && visitedPoints[destination].Position == BasePosition
        && Retrace(visitedPoints[..visitedPointsCount], destination).Some?
        && next.value == visitedPoints[Retrace(visitedPoints[..visitedPointsCount], destination).value].Position
        && Adjacent(start, next.value) && InMap(next.value) && GetTile(mapTiles, next.value) != Stone
    {
      var found := Flood(start);
      parents := SearchGrown(mapTiles, start);
      destination := 0;
      if found.None? {
        return None, parents, destination;
      }
      destination := found.value;
      var target := Backtrack(found.value);
      if target.None? {
        return None, parents, destination;
      }
      ghost var vs := visitedPoints[..visitedPointsCount];
      RetraceReachesStart(vs, parents, start, mapTiles, destination);
      var q := visitedPoints[target.value].Position;
      assert q == vs[target.value].Position;
      return Some(q), parents, destination;
    }

    /**
     * GameComplexMove: unless the bot has used up its path searches, a
     * route search; the bot moves exactly when the search leads to a tile,
     * and then it steps onto that tile, whether or not another bot stands
     * there. Its search count is left to GameStep; any failure leaves the
     * bot as it was.
     */
    method ComplexMove(bi: nat) returns (moved: bool, ghost parents: seq<nat>)
      requires Valid() && bi < MAX_BOTS
      modifies bots, visitedPoints, this`visitedPointsCount
      ensures Valid()
      ensures forall k :: 0 <= k < MAX_BOTS && k != bi ==> bots[k] == old(bots[k])
      ensures moved <==> (old(bots[bi].FloodAttempts) < MAX_FLOOD_ATTEMPTS && old(Routed(mapTiles, bots[bi].Position)).Some?)
      ensures moved ==> bots[bi].Position == old(Routed(mapTiles, bots[bi].Position)).value
      ensures old(bots[bi].FloodAttempts) >= MAX_FLOOD_ATTEMPTS ==>
        !moved && visitedPointsCount == old(visitedPointsCount) && visitedPoints[..] == old(visitedPoints[..])
      ensures !moved ==> bots[bi] == old(bots[bi])
      ensures moved ==>
        && bots[bi] == old(bots[bi]).(Position := bots[bi].Position)
        && Adjacent(old(bots[bi].Position), bots[bi].Position) && GetTile(mapTiles, bots[bi].Position) != Stone
      ensures old(bots[bi].FloodAttempts) < MAX_FLOOD_ATTEMPTS ==>
        Grown(visitedPoints[..visitedPointsCount], parents, old(bots[bi].Position), mapTiles)
    {
      parents := [];
      if bots[bi].FloodAttempts >= MAX_FLOOD_ATTEMPTS {
        return false, parents;
      }
      var next;
      ghost var destination;
      next, parents, destination := Route(bots[bi].Position);
      if next.None? {
        return false, parents;
      }
      ghost var vs := visitedPoints[..visitedPointsCount];
      bots[bi] := bots[bi].(Position := next.value);
      assert visitedPoints[..visitedPointsCount] == vs;
      return true, parents;
    }

    /**
     * GameRandomizeBot on the bot in slot bi: it moves to the first vacant
     * tile the stream rand yields and its search count restarts. used is
     * how much of the stream the draws took.
     */
    method RandomizeBot(bi: nat, rand: seq<U8>) returns (used: nat)
      requires Valid() && bi < MAX_BOTS
      requires Game.Relocation(mapTiles, Game.Positions(bots[..botCount]), rand, 0).Some?
      modifies bots
      ensures Valid()
      ensures bots[..] == old(bots[..])[bi := old(bots[bi]).(
        Position := old(Game.Relocation(mapTiles, Game.Positions(bots[..botCount]), rand, 0)).value.0, FloodAttempts := 0)]
      ensures used == old(Game.Relocation(mapTiles, Game.Positions(bots[..botCount]), rand, 0)).value.1
      ensures Game.Vacant(mapTiles, old(Game.Positions(bots[..botCount])), bots[bi].Position)
    {
      Game.RelocationVacant(mapTiles, Game.Positions(bots[..botCount]), rand, 0);
      var p;
      p, used := DrawVacant(rand);
      bots[bi] := bots[bi].(Position := p, FloodAttempts := 0);
    }

    /**
     * The loop of GameRandomizeBot: draw a tile until it is neither the
     * base nor stone and no active bot stands on it.
     */
    method DrawVacant(rand: seq<U8>) returns (p: Point, used: nat)
      requires Counted() && Game.Relocation(mapTiles, Game.Positions(bots[..botCount]), rand, 0).Some?
      ensures (p, used) == Game.Relocation(mapTiles, Game.Positions(bots[..botCount]), rand, 0).value
    {
      ghost var occupied := Game.Positions(bots[..botCount]);
      ghost var goal := Game.Relocation(mapTiles, occupied, rand, 0);
      p, used := Point(0, 0), 0;
      var vacant := false;
      while !vacant
        invariant used <= |rand|
        invariant !vacant ==> Game.Relocation(mapTiles, occupied, rand, used) == goal
        invariant vacant ==> goal == Some((p, used))
        decreases |rand| - used
      {
        p, used, vacant := DrawStep(rand, used);
      }
    }

    /** One pass of GameRandomizeBot's loop from stream position k, as a step of Relocation. */
    method DrawStep(rand: seq<U8>, k: nat) returns (p: Point, next: nat, vacant: bool)
      requires Counted() && Game.Relocation(mapTiles, Game.Positions(bots[..botCount]), rand, k).Some?
      ensures k < next <= |rand|
      ensures vacant ==> Game.Relocation(mapTiles, Game.Positions(bots[..botCount]), rand, k) == Some((p, next))
      ensures !vacant ==>
        Game.Relocation(mapTiles, Game.Positions(bots[..botCount]), rand, k)
          == Game.Relocation(mapTiles, Game.Positions(bots[..botCount]), rand, next)
    {
      ghost var occupied := Game.Positions(bots[..botCount]);
      Game.RelocationDraws(mapTiles, occupied, rand, k);
      ghost var ix;
      p, next, vacant, ix := DrawTile(rand, k);
      ghost var iy := next - 1;
      Game.RelocationStep(mapTiles, occupied, rand, k, ix, iy);
      assert iy + 1 == next && Point(rand[ix], rand[iy]) == p;
    }

    /**
     * One pass of GameRandomizeBot's loop from stream position k: the tile
     * drawn (X at ix, Y just before next) and whether it is vacant.
     */
    method DrawTile(rand: seq<U8>, k: nat) returns (p: Point, next: nat, vacant: bool, ghost ix: nat)
      requires Counted() && Game.DrawBelow(rand, k, MAP_WIDTH).Some?
      requires Game.DrawBelow(rand, Game.DrawBelow(rand, k, MAP_WIDTH).value + 1, MAP_HEIGHT).Some?
      ensures Game.DrawBelow(rand, k, MAP_WIDTH) == Some(ix) && Game.DrawBelow(rand, ix + 1, MAP_HEIGHT) == Some(next - 1)
      ensures p == Point(rand[ix], rand[next - 1]) && InMap(p)
      ensures vacant == Game.Vacant(mapTiles, Game.Positions(bots[..botCount]), p)
    {
      var randX, randY;
      randX, next := Game.DrawByte(rand, k, MAP_WIDTH);
      ix := next - 1;
      randY, next := Game.DrawByte(rand, next, MAP_HEIGHT);
      p := Point(randX, randY);
      if PointsEqual(p, BasePosition) || GetTile(mapTiles, p) == Stone {
        return p, next, false, ix;
      }
      var other := BotAtLocation(p);
      return p, next, !other, ix;
    }

    /**
     * The move of the bot in slot bi in GameStep: a greedy step; failing
     * that, a path search; failing both, CountFailure. The bot ends as
     * StepMove says, so it keeps its hit points, and no other slot changes.
     */
    method Advance(bi: nat, shortestAxis: (Point, Point) -> int, rand: seq<U8>) returns (simple: bool, complex: bool)
      requires Valid() && bi < MAX_BOTS
      requires Game.Relocation(mapTiles, Game.Positions(bots[..botCount]), rand, 0).Some?
      modifies bots, visitedPoints, this`visitedPointsCount
      ensures Valid()
      ensures forall k :: 0 <= k < MAX_BOTS && k != bi ==> bots[k] == old(bots[k])
      ensures bots[bi].HealthPoints == old(bots[bi].HealthPoints)
      ensures simple == old(Game.SimpleMoveOutcome(mapTiles, bots[..botCount], [], bots[bi])).0
      ensures complex <==> (!simple && old(bots[bi].FloodAttempts) < MAX_FLOOD_ATTEMPTS
        && old(Routed(mapTiles, bots[bi].Position)).Some?)
      ensures bots[bi] == old(StepMove(mapTiles, bots[..botCount], bots[bi],
        shortestAxis(bots[bi].Position, BasePosition) >= BOT_ATTACK_DISTANCE,
        Game.Relocation(mapTiles, Game.Positions(bots[..botCount]), rand, 0).value.0))
    {
      complex := false;
      simple := SimpleMove(bi);
      if !simple {
        assert bots[..botCount] == old(bots[..botCount]);
        complex := Retry(bi, shortestAxis, rand);
      }
    }

    /**
     * GameStep's move of the bot in slot bi after its greedy step failed:
     * a successful path search restarts its search count; otherwise
     * CountFailure.
     */
    method Retry(bi: nat, shortestAxis: (Point, Point) -> int, rand: seq<U8>) returns (complex: bool)
      requires Valid() && bi < MAX_BOTS
      requires Game.Relocation(mapTiles, Game.Positions(bots[..botCount]), rand, 0).Some?
      modifies bots, visitedPoints, this`visitedPointsCount
      ensures Valid()
      ensures forall k :: 0 <= k < MAX_BOTS && k != bi ==> bots[k] == old(bots[k])
      ensures bots[bi].HealthPoints == old(bots[bi].HealthPoints)
      ensures complex <==> (old(bots[bi].FloodAttempts) < MAX_FLOOD_ATTEMPTS && old(Routed(mapTiles, bots[bi].Position)).Some?)
      ensures complex ==> bots[bi].FloodAttempts == 0
      ensures bots[bi] == old(SearchMove(mapTiles, bots[bi],
        shortestAxis(bots[bi].Position, BasePosition) >= BOT_ATTACK_DISTANCE,
        Game.Relocation(mapTiles, Game.Positions(bots[..botCount]), rand, 0).value.0))
    {
      ghost var b0, far := bots[bi], shortestAxis(bots[bi].Position, BasePosition) >= BOT_ATTACK_DISTANCE;
      ghost var spot := Game.Relocation(mapTiles, Game.Positions(bots[..botCount]), rand, 0).value.0;
      ghost var parents;
      complex, parents := ComplexMove(bi);
      if complex {
        bots[bi] := bots[bi].(FloodAttempts := 0);
      } else {
        assert bots[..botCount] == old(bots[..botCount]);
        CountFailure(bi, shortestAxis, rand);
      }
      assert bots[bi] == SearchMove(mapTiles, b0, far, spot);
    }

    /**
     * The end of GameStep's move when both moves failed: FloodAttempts++ in
     * uint8_t arithmetic, then the relocation of a bot that has failed
     * MAX_FLOOD_ATTEMPTS times or more and is far from the base. A near bot
     * keeps counting, up to 255 and round to 0, when its path searches
     * resume.
     */
    method CountFailure(bi: nat, shortestAxis: (Point, Point) -> int, rand: seq<U8>)
      requires Valid() && bi < MAX_BOTS
      requires Game.Relocation(mapTiles, Game.Positions(bots[..botCount]), rand, 0).Some?
      modifies bots
      ensures Valid()
      ensures forall k :: 0 <= k < MAX_BOTS && k != bi ==> bots[k] == old(bots[k])
      ensures ((old(bots[bi].FloodAttempts) + 1) % 0x100 < MAX_FLOOD_ATTEMPTS
          || shortestAxis(old(bots[bi].Position), BasePosition) < BOT_ATTACK_DISTANCE) ==>
        bots[bi] == old(bots[bi]).(FloodAttempts := (old(bots[bi].FloodAttempts) + 1) % 0x100)
      ensures ((old(bots[bi].FloodAttempts) + 1) % 0x100 >= MAX_FLOOD_ATTEMPTS
          && shortestAxis(old(bots[bi].Position), BasePosition) >= BOT_ATTACK_DISTANCE) ==>
        bots[bi] == old(bots[bi]).(
          Position := old(Game.Relocation(mapTiles, Game.Positions(bots[..botCount]), rand, 0)).value.0, FloodAttempts := 0)
      ensures bots[bi] == old(AfterFailure(bots[bi], shortestAxis(bots[bi].Position, BasePosition) >= BOT_ATTACK_DISTANCE,
        Game.Relocation(mapTiles, Game.Positions(bots[..botCount]), rand, 0).value.0))
    {
      bots[bi] := bots[bi].(FloodAttempts := (bots[bi].FloodAttempts + 1) % 0x100);
      if bots[bi].FloodAttempts >= MAX_FLOOD_ATTEMPTS {
        var distance := shortestAxis(bots[bi].Position, BasePosition);
        if distance >= BOT_ATTACK_DISTANCE {
          assert Game.Positions(bots[..botCount]) == old(Game.Positions(bots[..botCount]));
          var _ := RandomizeBot(bi, rand);
        }
      }
    }

    /**
     * GameStep: the bot in slot botStep moves as StepMove says, whether or
     * not the slot is active, leaving the table moved; botStep advances as
     * GameWindow.c computes it; then the spawning loop fills the free entry
     * points of moved while there is room. The active bots other than the
     * one that moved keep their state, and a new bot never lands on a tile
     * an earlier slot's bot stands on.
     */
    method Step(shortestAxis: (Point, Point) -> int, rand: seq<U8>) returns (ghost moved: seq<Bot>)
      requires Valid() && botStep < MAX_BOTS
      requires Game.Relocation(mapTiles, Game.Positions(bots[..botCount]), rand, 0).Some?
      modifies bots, visitedPoints, this`visitedPointsCount, this`botStep, this`botCount
      ensures Valid()
      ensures botStep == NextBotStep(old(botStep), old(botCount))
      ensures |moved| == MAX_BOTS
      ensures moved[old(botStep)] == old(StepMove(mapTiles, bots[..botCount], bots[botStep],
        shortestAxis(bots[botStep].Position, BasePosition) >= BOT_ATTACK_DISTANCE,
        Game.Relocation(mapTiles, Game.Positions(bots[..botCount]), rand, 0).value.0))
      ensures forall k :: 0 <= k < MAX_BOTS && k != old(botStep) ==> moved[k] == old(bots[k])
      ensures (bots[..], botCount) == Spawned(moved, old(botCount), 0, levelHead)
      ensures old(botCount) <= botCount
      ensures forall k :: 0 <= k < old(botCount) && k != old(botStep) ==> bots[k] == old(bots[k])
      ensures old(botStep) < old(botCount) ==> bots[old(botStep)].HealthPoints == old(bots[botStep].HealthPoints)
      ensures old(botStep) < old(botCount) ==> bots[old(botStep)] == old(StepMove(mapTiles, bots[..botCount], bots[botStep],
        shortestAxis(bots[botStep].Position, BasePosition) >= BOT_ATTACK_DISTANCE,
        Game.Relocation(mapTiles, Game.Positions(bots[..botCount]), rand, 0).value.0))
      ensures forall k :: old(botCount) <= k < botCount ==>
        && bots[k].HealthPoints == levelHead && bots[k].Position in EntryPoints
        && forall j :: 0 <= j < k ==> bots[j].Position != bots[k].Position
      ensures old(botCount) + |EntryPoints| <= MAX_BOTS ==>
        forall k :: 0 <= k < |EntryPoints| ==> EntryPoints[k] in Game.Positions(bots[..botCount])
    {
      ghost var i0 := botStep;
      var simple, complex := Advance(botStep, shortestAxis, rand);
      ghost var mover := bots[i0];
      moved := bots[..];
      botStep := NextBotStep(botStep, botCount);
      Spawn();
      SpawnedSlots(moved, old(botCount), levelHead);
      SpawnedApart(moved, old(botCount), levelHead);
      if old(botCount) + |EntryPoints| <= MAX_BOTS {
        SpawnedCovers(moved, old(botCount), levelHead);
      }
      if i0 < old(botCount) {
        assert bots[i0] == moved[i0] == mover;
      }
    }

    /**
     * The spawning loop of GameStep: a new bot on each entry point in turn,
     * while there is room, unless an active bot already stands there.
     */
    method Spawn()
      requires Valid()
      modifies bots, this`botCount
      ensures Valid()
      ensures (bots[..], botCount) == Spawned(old(bots[..]), old(botCount), 0, levelHead)
    {
      var i := 0;
      while i < |EntryPoints| && botCount < MAX_BOTS
        invariant Valid() && i <= |EntryPoints|
        invariant Spawned(bots[..], botCount, i, levelHead) == Spawned(old(bots[..]), old(botCount), 0, levelHead)
      {
        SpawnAt(i);
        i := i + 1;
      }
    }

    /** One pass of the spawning loop: a new bot on EntryPoints[i] unless an active bot stands there. */
    method SpawnAt(i: nat)
      requires Valid() && i < |EntryPoints| && botCount < MAX_BOTS
      modifies bots, this`botCount
      ensures Valid()
      ensures Spawned(bots[..], botCount, i + 1, levelHead) == old(Spawned(bots[..], botCount, i, levelHead))
    {
      SpawnedStep(bots[..], botCount, i, levelHead);
      var present := BotAtLocation(EntryPoints[i]);
      if !present {
        NewBot(EntryPoints[i]);
      }
    }

    /**
     * One received byte of GameParseInput. The decoder moves to the state
     * the escape-sequence grammar gives; a digit inside a size report goes
     * to its parameter slot; a completed report sets the window size,
     * resetting the view when the size changed, and clears the buffers; the
     * arrow keys scroll the view and w/s/a/d steer the cursor. The b and
     * space keys of the tower game only restart the decoder here.
     */
    method ParseByte(b: U8, scan: (seq<U8>, nat) -> Option<int>)
      requires Valid() && ViewBounded()
      modifies this`csCount, params, this`viewPosition, this`cursorPosition, this`windowSize
      ensures Valid() && ViewBounded()
      ensures csCount == ContinuedCount(old(csCount), b).GetOr(0)
      ensures cursorPosition == Steer(Classify(old(csCount), b), old(cursorPosition))
      ensures forall k :: 0 <= k < params.Length ==>
        params[k] == if Classify(old(csCount), b) == SizeReport then 0
                     else if ParamSlot(old(csCount), b) == Some(k) then b else old(params[k])
      ensures Classify(old(csCount), b) != SizeReport ==>
        viewPosition == Game.Scroll(Classify(old(csCount), b), old(viewPosition), old(windowSize)) && windowSize == old(windowSize)
      ensures Classify(old(csCount), b) == SizeReport ==>
        && windowSize == Game.ReportedSize(old(params[..]), scan)
        && viewPosition == if windowSize == old(windowSize) then old(viewPosition) else Point(0, 0)
    {
      var action := Classify(csCount, b);
      if action in {Continue, SizeReport, Reset, Build, Inspect} {
        Sequence(b, scan);
      } else {
        Move(action);
      }
    }

    /**
     * GameParseInput: the received bytes, one at a time. The decoder ends in
     * the state the grammar gives for the whole run, the view stays within
     * scrolling range and the cursor within the map's columns.
     */
    method ParseInput(input: seq<U8>, scan: (seq<U8>, nat) -> Option<int>)
      requires Valid() && ViewBounded()
      modifies this`csCount, params, this`viewPosition, this`cursorPosition, this`windowSize
      ensures Valid() && ViewBounded()
      ensures csCount == DecoderState(old(csCount), input)
      ensures InMap(old(cursorPosition)) && (forall k :: 0 <= k < |input| ==> input[k] != 's' as int) ==> InMap(cursorPosition)
    {
      for i := 0 to |input|
        invariant Valid() && ViewBounded()
        invariant csCount == DecoderState(old(csCount), input[..i])
        invariant InMap(old(cursorPosition)) && (forall k :: 0 <= k < |input| ==> input[k] != 's' as int) ==> InMap(cursorPosition)
      {
        ParseByte(input[i], scan);
        DecoderStateStep(old(csCount), input, i);
      }
      assert input[..|input|] == input;
    }

    /** The bytes that continue, complete or break an escape sequence, and the b and space keys. */
    method Sequence(b: U8, scan: (seq<U8>, nat) -> Option<int>)
      requires Valid() && ViewBounded() && Classify(csCount, b) in {Continue, SizeReport, Reset, Build, Inspect}
      modifies this`csCount, params, this`viewPosition, this`windowSize
      ensures Valid() && ViewBounded()
      ensures csCount == ContinuedCount(old(csCount), b).GetOr(0)
      ensures forall k :: 0 <= k < params.Length ==>
        params[k] == if Classify(old(csCount), b) == SizeReport then 0
                     else if ParamSlot(old(csCount), b) == Some(k) then b else old(params[k])
      ensures Classify(old(csCount), b) != SizeReport ==> viewPosition == old(viewPosition) && windowSize == old(windowSize)
      ensures Classify(old(csCount), b) == SizeReport ==>
        && windowSize == Game.ReportedSize(old(params[..]), scan)
        && viewPosition == if windowSize == old(windowSize) then old(viewPosition) else Point(0, 0)
    {
      if ContinuedCount(csCount, b).Some? {
        Proceed(b);
      } else if CompletesSizeReport(csCount, b) {
        ApplySizeReport(scan);
      } else {
        csCount := 0;
      }
    }

    /** The arrow keys scroll the view and end the sequence; w/s/a/d steer the cursor. */
    method Move(action: KeyAction)
      requires Valid() && ViewBounded() && action !in {Continue, SizeReport, Reset, Build, Inspect}
      requires action in {ViewDown, ViewUp, ViewLeft, ViewRight} ==> csCount == 2
      requires action !in {ViewDown, ViewUp, ViewLeft, ViewRight} ==> csCount == 0
      modifies this`csCount, this`viewPosition, this`cursorPosition
      ensures Valid() && ViewBounded() && csCount == 0
      ensures cursorPosition == Steer(action, old(cursorPosition))
      ensures viewPosition == Game.Scroll(action, old(viewPosition), windowSize)
    {
      match action
      case ViewDown => viewPosition := Game.Scroll(action, viewPosition, windowSize); csCount := 0;
      case ViewUp => viewPosition := Game.Scroll(action, viewPosition, windowSize); csCount := 0;
      case ViewLeft => viewPosition := Game.Scroll(action, viewPosition, windowSize); csCount := 0;
      case ViewRight => viewPosition := Game.Scroll(action, viewPosition, windowSize); csCount := 0;
      case CursorUp => cursorPosition := Steer(action, cursorPosition);
      case CursorDown => cursorPosition := Steer(action, cursorPosition);
      case CursorRight => cursorPosition := Steer(action, cursorPosition);
      case CursorLeft => cursorPosition := Steer(action, cursorPosition);
    }

    /** A byte that continues an escape sequence; a parameter digit is stored in its slot. */
    method Proceed(b: U8)
      requires Valid() && ContinuedCount(csCount, b).Some?
      modifies this`csCount, params
      ensures Valid()
      ensures csCount == old(ContinuedCount(csCount, b)).value
      ensures forall k :: 0 <= k < params.Length ==>
        params[k] == if old(ParamSlot(csCount, b)) == Some(k) then b else old(params[k])
    {
      if IsDigit(b) && 4 <= csCount < 9 {
        params[csCount - 4] := b;
        csCount := csCount + 1;
      } else if IsDigit(b) && 10 <= csCount < 15 {
        params[PARAM_BUF_LEN + csCount - 10] := b;
        csCount := csCount + 1;
      } else if b == ';' as int && 5 <= csCount < 10 {
        csCount := 10;
      } else {
        csCount := csCount + 1;
      }
    }

    /**
     * The 't' that completes a window-size report: both extents are read
     * from the parameter buffers (the terminal's defaults where nothing
     * converts) and clamped to 255; a changed size resets the view to the
     * map's corner; the buffers are cleared and the decoder restarts.
     */
    method ApplySizeReport(scan: (seq<U8>, nat) -> Option<int>)
      requires Valid() && ViewBounded()
      modifies this`csCount, params, this`viewPosition, this`windowSize
      ensures Valid() && ViewBounded()
      ensures csCount == 0
      ensures windowSize == Game.ReportedSize(old(params[..]), scan)
      ensures viewPosition == if windowSize == old(windowSize) then old(viewPosition) else Point(0, 0)
      ensures forall k :: 0 <= k < params.Length ==> params[k] == 0
    {
      var height := Game.ReportedExtent(scan(params[..], 0), TERMINAL_DEF_HEIGHT);
      var width := Game.ReportedExtent(scan(params[..], PARAM_BUF_LEN), TERMINAL_DEF_WIDTH);
      if !SizesEqual(windowSize, Size(width, height)) {
        viewPosition := Point(0, 0);
        windowSize := Size(width, height);
      }
      for k := 0 to params.Length
        invariant forall j :: 0 <= j < k ==> params[j] == 0
        modifies params
      {
        params[k] := 0;
      }
      csCount := 0;
    }
  }
}
