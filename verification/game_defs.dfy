/**
 * What both game engines share: the constants of Game/Game.h, the Bot, Tower
 * and VisitedPoint records, the linear scan by position, the escape-sequence
 * grammar of GameParseInput and the layering of the path-finding pool.
 */
module GameDefs {
  import opened Size
  import opened Point
  import opened Wrappers
  import opened Tiles

  const INITIAL_GOLD: int := 30000
  const TOWER_BUILD_COST: int := 1500
  const BOT_ATTACK_DISTANCE: nat := 6
  const MAX_BOTS: nat := 32
  const MAX_TOWERS: nat := 128
  const MAX_FLOOD_ATTEMPTS: nat := 5
  const BORDER_WIDTH: nat := 1
  const PARAM_BUF_LEN: nat := 5
  const PARAM_COUNT: nat := 2
  const TERMINAL_DEF_WIDTH: U8 := 80
  const TERMINAL_DEF_HEIGHT: U8 := 24

  datatype Bot = Bot(HealthPoints: U8, Position: Point, FloodAttempts: U8)
  datatype Tower = Tower(Position: Point, Level: U8)
  datatype VisitedPoint = VisitedPoint(Position: Point, Weight: U8)

  function BotPosition(b: Bot): Point { b.Position }
  function TowerPosition(t: Tower): Point { t.Position }
  function VisitedPosition(v: VisitedPoint): Point { v.Position }

  /**
   * The linear scans GameBotByPoint, GameTowerByPoint, GameBotAtLocation and
   * VisitedPointByPoint: the first record standing on p, if any.
   */
  function FindAt<T>(s: seq<T>, pos: T -> Point, p: Point): (r: Option<nat>)
    ensures r.Some? ==> r.value < |s| && pos(s[r.value]) == p
    ensures r.Some? ==> forall k :: 0 <= k < r.value ==> pos(s[k]) != p
    ensures r.None? ==> forall k :: 0 <= k < |s| ==> pos(s[k]) != p
  {
    if |s| == 0 then None
    else match FindAt(s[..|s| - 1], pos, p)
      case Some(i) => Some(i)
      case None => if pos(s[|s| - 1]) == p then Some(|s| - 1) else None
  }

  /** A scan of a longer prefix finds the same record once one was found. */
  lemma {:induction false} FindAtExtend<T>(s: seq<T>, pos: T -> Point, p: Point, n: nat)
    requires n < |s|
    ensures FindAt(s[..n + 1], pos, p) ==
      if FindAt(s[..n], pos, p).Some? then FindAt(s[..n], pos, p)
      else if pos(s[n]) == p then Some(n) else None
  {
    assert s[..n + 1][..n] == s[..n];
  }

  /**
   * The escape-sequence grammar of GameParseInput: the csCount that a byte
   * moves the decoder to when it continues the sequence in progress (ESC, '[',
   * '8', ';', up to five digits, ';', up to five digits). None for every other
   * byte: those either complete a sequence or break it, and csCount returns to 0.
   */
  function ContinuedCount(cs: nat, b: U8): (r: Option<nat>)
    ensures r.Some? ==> cs < r.value <= 15
    ensures cs >= 15 ==> r.None?
    ensures r.Some? && r.value >= 4 ==> cs >= 3
  {
    if b == 0x1B && cs == 0 then Some(1)
    else if b == 0x5B && cs == 1 then Some(2)
    else if b == '8' as int && cs == 2 then Some(3)
    else if b == ';' as int && cs == 3 then Some(4)
    else if IsDigit(b) && 4 <= cs < 9 then Some(cs + 1)
    else if b == ';' as int && 5 <= cs < 10 then Some(10)
    else if IsDigit(b) && 10 <= cs < 15 then Some(cs + 1)
    else None
  }

  /**
   * Where a digit byte is stored: params[0][csCount - 4] while reading the
   * first parameter, params[1][csCount - 10] while reading the second, as an
   * index into the ten bytes of the two buffers laid end to end.
   */
  function ParamSlot(cs: nat, b: U8): (r: Option<nat>)
    ensures r.Some? ==> r.value < PARAM_COUNT * PARAM_BUF_LEN
    ensures r.Some? ==> r.value % PARAM_BUF_LEN == (if cs < 10 then cs - 4 else cs - 10)
    ensures r.Some? ==> IsDigit(b) && ContinuedCount(cs, b) == Some(cs + 1)
  {
    if IsDigit(b) && 4 <= cs < 9 then Some(cs - 4)
    else if IsDigit(b) && 10 <= cs < 15 then Some(PARAM_BUF_LEN + cs - 10)
    else None
  }

  /** The window-size report ends with 't' once the second parameter has a digit. */
  predicate CompletesSizeReport(cs: nat, b: U8)
  {
    b == 't' as int && 11 <= cs < 16
  }

  /** A size parameter as the uint8_t window extent: clamped to 255. */
  function ClampToByte(v: nat): (r: U8)
    ensures r <= v && (v <= 255 ==> r == v) && (v > 255 ==> r == 255)
  {
    if v > 255 then 255 else v
  }

  /** What a received byte does, given the decoder state csCount. */
  datatype KeyAction =
    | ViewDown | ViewUp | ViewLeft | ViewRight
    | CursorUp | CursorDown | CursorRight | CursorLeft
    | Build | Inspect
    | SizeReport | Continue | Reset

  /**
   * The branch of GameParseInput a byte takes: the arrow keys after ESC '[',
   * the w/s/d/a/b/space keys outside a sequence, the window-size report's
   * terminating 't', a byte that continues a sequence, and everything else.
   */
  function Classify(cs: nat, b: U8): (a: KeyAction)
    ensures a == Continue <==> ContinuedCount(cs, b).Some?
    ensures a == SizeReport <==> CompletesSizeReport(cs, b)
    ensures a in {CursorUp, CursorDown, CursorRight, CursorLeft, Build, Inspect} ==> cs == 0
    ensures a in {ViewDown, ViewUp, ViewLeft, ViewRight} ==> cs == 2
    ensures a == Build ==> b == 'b' as int
    ensures a == Inspect ==> b == ' ' as int
  {
    if ContinuedCount(cs, b).Some? then Continue
    else if cs == 2 && b == 0x42 then ViewDown
    else if cs == 2 && b == 0x41 then ViewUp
    else if cs == 2 && b == 0x44 then ViewLeft
    else if cs == 2 && b == 0x43 then ViewRight
    else if cs == 0 && b == 'w' as int then CursorUp
    else if cs == 0 && b == 's' as int then CursorDown
    else if cs == 0 && b == 'd' as int then CursorRight
    else if cs == 0 && b == 'a' as int then CursorLeft
    else if cs == 0 && b == 'b' as int then Build
    else if cs == 0 && b == ' ' as int then Inspect
    else if CompletesSizeReport(cs, b) then SizeReport
    else Reset
  }

  /** The decoder state after a run of received bytes. */
  function DecoderState(cs: nat, input: seq<U8>): (r: nat)
    ensures cs <= 15 ==> r <= 15
    decreases |input|
  {
    if |input| == 0 then cs
    else DecoderState(ContinuedCount(cs, input[0]).GetOr(0), input[1..])
  }

  lemma {:induction false} DecoderStateAppend(cs: nat, a: seq<U8>, b: seq<U8>)
    ensures DecoderState(cs, a + b) == DecoderState(DecoderState(cs, a), b)
    decreases |a|
  {
    if |a| == 0 {
      assert a + b == b;
    } else {
      assert (a + b)[1..] == a[1..] + b;
      DecoderStateAppend(ContinuedCount(cs, a[0]).GetOr(0), a[1..], b);
    }
  }

  /** The decoder state after one more byte. */
  lemma DecoderStateStep(cs: nat, input: seq<U8>, i: nat)
    requires i < |input|
    ensures DecoderState(cs, input[..i + 1]) == ContinuedCount(DecoderState(cs, input[..i]), input[i]).GetOr(0)
  {
    DecoderStateAppend(cs, input[..i], [input[i]]);
    assert input[..i + 1] == input[..i] + [input[i]];
  }

  /** A run of digits inside a parameter advances csCount by one per digit. */
  lemma {:induction false} DigitsAdvance(cs: nat, digits: seq<U8>)
    requires AllDigits(digits)
    requires (4 <= cs && cs + |digits| <= 9) || (10 <= cs && cs + |digits| <= 15)
    ensures DecoderState(cs, digits) == cs + |digits|
    decreases |digits|
  {
    if |digits| > 0 {
      DigitsAdvance(cs + 1, digits[1..]);
    }
  }

  /**
   * The terminal's reply to a window-size request, ESC '[' '8' ';' height ';'
   * width, with one to five digits per number, leaves the decoder waiting
   * for the 't' that completes it.
   */
  lemma {:induction false} SizeReportAccepted(height: seq<U8>, width: seq<U8>)
    requires 1 <= |height| <= PARAM_BUF_LEN && AllDigits(height)
    requires 1 <= |width| <= PARAM_BUF_LEN && AllDigits(width)
    ensures var prefix := [0x1B, 0x5B, '8' as int, ';' as int] + height + [';' as int] + width;
      && DecoderState(0, prefix) == 10 + |width|
      && Classify(10 + |width|, 't' as int) == SizeReport
      && DecoderState(0, prefix + ['t' as int]) == 0
  {
    var intro: seq<U8> := [0x1B, 0x5B, '8' as int, ';' as int];
    var prefix := intro + height + [';' as int] + width;
    assert DecoderState(3, intro[3..]) == 4;
    assert DecoderState(2, intro[2..]) == 4 by { assert intro[2..][1..] == intro[3..]; }
    assert DecoderState(1, intro[1..]) == 4 by { assert intro[1..][1..] == intro[2..]; }
    assert DecoderState(0, intro) == 4;
    DecoderStateAppend(0, intro, height);
    DigitsAdvance(4, height);
    DecoderStateAppend(0, intro + height, [';' as int]);
    DecoderStateAppend(0, intro + height + [';' as int], width);
    DigitsAdvance(10, width);
    DecoderStateAppend(0, prefix, ['t' as int]);
  }

  /** The pool entry VisitedPointByPoint finds for q, if it has weight w. */
  function Probe(vs: seq<VisitedPoint>, q: Option<Point>, w: U8): (r: Option<nat>)
    ensures r.Some? ==> q.Some? && r.value < |vs| && vs[r.value].Position == q.value && vs[r.value].Weight == w
  {
    match q
    case None => None
    case Some(x) =>
      match FindAt(vs, VisitedPosition, x)
      case Some(k) => if vs[k].Weight == w then Some(k) else None
      case None => None
  }

  /**
   * VisitedPointByPointWeight: the pool entry of weight w found by probing
   * around p North, East, South, West. The East probe is guarded by the
   * negated step result, so it looks at p itself (when the step would wrap)
   * or at nothing: the East neighbour is never returned.
   */
  function BacktrackStep(vs: seq<VisitedPoint>, p: Point, w: U8): (r: Option<nat>)
    ensures r.Some? ==> r.value < |vs| && vs[r.value].Weight == w
    ensures r.Some? ==> vs[r.value].Position == p || Adjacent(p, vs[r.value].Position)
    ensures r.Some? ==> vs[r.value].Position != PointAddDirection(p, East)
  {
    var north := Probe(vs, TryAddDirection(p, North), w);
    var east := Probe(vs, if TryAddDirection(p, East).None? then Some(p) else None, w);
    var south := Probe(vs, TryAddDirection(p, South), w);
    var west := Probe(vs, TryAddDirection(p, West), w);
    if north.Some? then north
    else if east.Some? then east
    else if south.Some? then south
    else west
  }

  /**
   * The backtracking walk of GameComplexMove from pool entry j: step to a
   * neighbour one lighter until an entry of weight at most one is reached,
   * or nothing when a step finds no neighbour.
   */
  function Retrace(vs: seq<VisitedPoint>, j: nat): (r: Option<nat>)
    requires j < |vs|
    ensures r.Some? ==> r.value < |vs| && vs[r.value].Weight <= 1
    ensures r.Some? && vs[j].Weight >= 1 ==> vs[r.value].Weight == 1
    decreases vs[j].Weight, 1
  {
    if vs[j].Weight <= 1 then Some(j) else RetraceOn(vs, j)
  }

  /** Retrace from an entry still heavier than one: take one step, then go on. */
  function RetraceOn(vs: seq<VisitedPoint>, j: nat): (r: Option<nat>)
    requires j < |vs| && vs[j].Weight > 1
    ensures r.Some? ==> r.value < |vs| && vs[r.value].Weight == 1
    decreases vs[j].Weight, 0
  {
    match BacktrackStep(vs, vs[j].Position, vs[j].Weight - 1)
    case None => None
    case Some(k) => Retrace(vs, k)
  }

  /** One step of the walk: Retrace from j continues from the step's result. */
  lemma {:induction false} RetraceStep(vs: seq<VisitedPoint>, j: nat, next: Option<nat>)
    requires j < |vs| && vs[j].Weight > 1
    requires next == BacktrackStep(vs, vs[j].Position, vs[j].Weight - 1)
    ensures next.None? ==> Retrace(vs, j).None?
    ensures next.Some? ==> next.value < |vs| && Retrace(vs, j) == Retrace(vs, next.value)
  {
    assert Retrace(vs, j) == RetraceOn(vs, j);
  }

  /**
   * Backtracking can miss: the only lighter neighbour of (0, 0) below lies
   * East of it, and the step search returns nothing.
   */
  lemma BacktrackMissesEast()
    ensures var vs := [VisitedPoint(Point(1, 0), 0), VisitedPoint(Point(0, 0), 1)];
      Adjacent(Point(0, 0), vs[0].Position) && BacktrackStep(vs, Point(0, 0), 0).None?
  {
    var vs := [VisitedPoint(Point(1, 0), 0), VisitedPoint(Point(0, 0), 1)];
    assert FindAt(vs, VisitedPosition, Point(0, 1)).None?;
  }

  /**
   * The miss spoils a whole walk back: in a pool in which (0, 0) has
   * weight 2 and its only weight-1 neighbour (1, 0) lies East, the walk
   * back as written fails where the intended one succeeds.
   */
  lemma RetraceMissesEast()
    ensures var vs := [VisitedPoint(Point(2, 0), 0), VisitedPoint(Point(1, 0), 1), VisitedPoint(Point(0, 0), 2)];
      Retrace(vs, 2).None? && RetraceIntended(vs, 2) == Some(1)
  {
    var vs := [VisitedPoint(Point(2, 0), 0), VisitedPoint(Point(1, 0), 1), VisitedPoint(Point(0, 0), 2)];
    assert FindAt(vs, VisitedPosition, Point(0, 1)).None?;
    assert FindAt(vs, VisitedPosition, Point(1, 0)) == Some(1);
  }

  /** The outcome of expanding one neighbour of a pool entry. */
  datatype Expansion = Skipped | Stored | PoolFull | ReachedBase(index: nat)

  /**
   * What pool entry j must satisfy given the entries before it: it lies in
   * the map, and is either the start at weight 0 (entry 0) or a passable
   * tile without a tower (of ts) next to an earlier entry, its parent, one
   * heavier than that parent, at least as heavy as every earlier entry and
   * at a position no earlier entry holds.
   */
  ghost predicate Fits(vs: seq<VisitedPoint>, parents: seq<nat>, start: Point, mapTiles: seq<U8>, ts: seq<Tower>, j: nat)
    requires j < |vs| == |parents| && |mapTiles| >= MAP_BYTES
  {
    && InMap(vs[j].Position) && vs[j].Weight <= j
    && (j == 0 ==> vs[j] == VisitedPoint(start, 0))
    && (j >= 1 ==>
          && parents[j] < j && vs[j].Weight == vs[parents[j]].Weight + 1
          && Adjacent(vs[parents[j]].Position, vs[j].Position)
          && GetTile(mapTiles, vs[j].Position) != Stone
          && (forall k :: 0 <= k < |ts| ==> ts[k].Position != vs[j].Position)
          && (forall k :: 0 <= k < j ==> vs[k].Weight <= vs[j].Weight && vs[k].Position != vs[j].Position))
  }

  /**
   * The wave-propagation pool GameComplexMove grows from start, after each
   * store: every entry fits the entries before it. parents records the index
   * of each entry's parent.
   */
  ghost predicate Layered(vs: seq<VisitedPoint>, parents: seq<nat>, start: Point, mapTiles: seq<U8>, ts: seq<Tower>)
  {
    && |mapTiles| >= MAP_BYTES && 1 <= |vs| == |parents|
    && forall j :: 0 <= j < |vs| ==> Fits(vs, parents, start, mapTiles, ts, j)
  }

  /**
   * Storing an open, unpooled neighbour of entry i one heavier than it keeps
   * the pool layered, provided no stored entry is more than one heavier than
   * entry i yet.
   */
  lemma {:induction false} PoolGrows(vs: seq<VisitedPoint>, parents: seq<nat>, start: Point, mapTiles: seq<U8>, ts: seq<Tower>, i: nat, p: Point)
    requires Layered(vs, parents, start, mapTiles, ts)
    requires i < |vs| && vs[|vs| - 1].Weight <= vs[i].Weight + 1 && vs[i].Weight < 255
    requires InMap(p) && Adjacent(vs[i].Position, p) && GetTile(mapTiles, p) != Stone
    requires FindAt(vs, VisitedPosition, p).None? && FindAt(ts, TowerPosition, p).None?
    ensures Layered(vs + [VisitedPoint(p, vs[i].Weight + 1)], parents + [i], start, mapTiles, ts)
  {
    var n := |vs|;
    var vs' := vs + [VisitedPoint(p, vs[i].Weight + 1)];
    var parents' := parents + [i];
    assert Fits(vs, parents, start, mapTiles, ts, i);
    assert Fits(vs, parents, start, mapTiles, ts, n - 1);
    forall j | 0 <= j < |vs'|
      ensures Fits(vs', parents', start, mapTiles, ts, j)
    {
      if j < n {
        assert Fits(vs, parents, start, mapTiles, ts, j);
        assert vs'[j] == vs[j] && parents'[j] == parents[j];
      } else {
        forall k | 0 <= k < n
          ensures vs'[k].Weight <= vs'[n].Weight && vs'[k].Position != vs'[n].Position
        {
          assert VisitedPosition(vs[k]) != p;
        }
        forall k | 0 <= k < |ts|
          ensures ts[k].Position != p
        {
          assert TowerPosition(ts[k]) != p;
        }
      }
    }
  }

  /**
   * Only the start has weight 0, so an entry of weight 1 is a four-neighbour
   * of the start.
   */
  lemma {:induction false} WeightOneIsNextToStart(vs: seq<VisitedPoint>, parents: seq<nat>, start: Point, mapTiles: seq<U8>, ts: seq<Tower>, j: nat)
    requires Layered(vs, parents, start, mapTiles, ts)
    requires j < |vs| && vs[j].Weight == 1
    ensures 1 <= j && Adjacent(start, vs[j].Position)
    ensures InMap(vs[j].Position) && GetTile(mapTiles, vs[j].Position) != Stone
  {
    assert Fits(vs, parents, start, mapTiles, ts, 0);
    assert Fits(vs, parents, start, mapTiles, ts, j);
    assert Fits(vs, parents, start, mapTiles, ts, parents[j]);
  }

  /**
   * A successful retrace from any entry but the start ends on a passable,
   * tower-free four-neighbour of the start: the tile a bot following the
   * wave steps to.
   */
  lemma {:induction false} RetraceEndsNextToStart(vs: seq<VisitedPoint>, parents: seq<nat>, start: Point, mapTiles: seq<U8>, ts: seq<Tower>, j: nat)
    requires Layered(vs, parents, start, mapTiles, ts)
    requires 1 <= j < |vs| && Retrace(vs, j).Some?
    ensures var k := Retrace(vs, j).value;
      && 1 <= k && Adjacent(start, vs[k].Position)
      && InMap(vs[k].Position) && GetTile(mapTiles, vs[k].Position) != Stone
      && FindAt(ts, TowerPosition, vs[k].Position).None?
  {
    assert Fits(vs, parents, start, mapTiles, ts, j);
    assert Fits(vs, parents, start, mapTiles, ts, parents[j]);
    var k := Retrace(vs, j).value;
    WeightOneIsNextToStart(vs, parents, start, mapTiles, ts, k);
    assert Fits(vs, parents, start, mapTiles, ts, k);
  }

  /**
   * The neighbour probe VisitedPointByPointWeight evidently means: all four
   * neighbours of p, the East one included, in the same order.
   */
  function BacktrackStepIntended(vs: seq<VisitedPoint>, p: Point, w: U8): (r: Option<nat>)
    ensures r.Some? ==> r.value < |vs| && vs[r.value].Weight == w && Adjacent(p, vs[r.value].Position)
  {
    var north := Probe(vs, TryAddDirection(p, North), w);
    var east := Probe(vs, TryAddDirection(p, East), w);
    var south := Probe(vs, TryAddDirection(p, South), w);
    var west := Probe(vs, TryAddDirection(p, West), w);
    if north.Some? then north
    else if east.Some? then east
    else if south.Some? then south
    else west
  }

  /** No two pool entries share a position. */
  predicate Distinct(vs: seq<VisitedPoint>)
  {
    forall i, j :: 0 <= i < j < |vs| ==> vs[i].Position != vs[j].Position
  }

  /**
   * In a pool without repeated positions the intended probe finds a
   * neighbour of weight w whenever one is pooled, and it finds the East
   * neighbour that the probe as written misses.
   */
  lemma BacktrackStepIntendedFinds(vs: seq<VisitedPoint>, p: Point, w: U8, k: nat)
    requires Distinct(vs) && k < |vs| && vs[k].Weight == w && Adjacent(p, vs[k].Position)
    ensures BacktrackStepIntended(vs, p, w).Some?
    ensures BacktrackStepIntended([VisitedPoint(Point(1, 0), 0), VisitedPoint(Point(0, 0), 1)], Point(0, 0), 0) == Some(0)
  {
    var q := vs[k].Position;
    var d := if q.Y + 1 == p.Y then North else if p.X + 1 == q.X then East else if p.Y + 1 == q.Y then South else West;
    assert TryAddDirection(p, d) == Some(q);
    var f := FindAt(vs, VisitedPosition, q);
    assert VisitedPosition(vs[k]) == q;
    assert f.Some? && f.value == k;
    assert Probe(vs, TryAddDirection(p, d), w) == Some(k);
    var ex := [VisitedPoint(Point(1, 0), 0), VisitedPoint(Point(0, 0), 1)];
    assert FindAt(ex, VisitedPosition, Point(1, 0)) == Some(0);
  }

  /** The backtracking walk of GameComplexMove with the intended probe. */
  function RetraceIntended(vs: seq<VisitedPoint>, j: nat): (r: Option<nat>)
    requires j < |vs|
    ensures r.Some? ==> r.value < |vs| && vs[r.value].Weight <= 1
    decreases vs[j].Weight
  {
    if vs[j].Weight <= 1 then Some(j)
    else match BacktrackStepIntended(vs, vs[j].Position, vs[j].Weight - 1)
      case None => None
      case Some(k) => RetraceIntended(vs, k)
  }

  /**
   * With the intended probe the walk back from any stored entry but the
   * start never gets stuck: every entry's parent is a pooled neighbour one
   * lighter, so the walk always ends on a passable, tower-free
   * four-neighbour of the start.
   */
  lemma {:induction false} RetraceIntendedSucceeds(vs: seq<VisitedPoint>, parents: seq<nat>, start: Point, mapTiles: seq<U8>, ts: seq<Tower>, j: nat)
    requires Layered(vs, parents, start, mapTiles, ts)
    requires 1 <= j < |vs|
    ensures RetraceIntended(vs, j).Some?
    ensures var k := RetraceIntended(vs, j).value;
      && 1 <= k && Adjacent(start, vs[k].Position)
      && InMap(vs[k].Position) && GetTile(mapTiles, vs[k].Position) != Stone
      && FindAt(ts, TowerPosition, vs[k].Position).None?
    decreases vs[j].Weight
  {
    assert Fits(vs, parents, start, mapTiles, ts, j);
    var pj := parents[j];
    assert Fits(vs, parents, start, mapTiles, ts, pj);
    if vs[j].Weight <= 1 {
      WeightOneIsNextToStart(vs, parents, start, mapTiles, ts, j);
    } else {
      assert Distinct(vs) by {
        forall a, b | 0 <= a < b < |vs|
          ensures vs[a].Position != vs[b].Position
        {
          assert Fits(vs, parents, start, mapTiles, ts, b);
        }
      }
      BacktrackStepIntendedFinds(vs, vs[j].Position, vs[j].Weight - 1, pj);
      var k := BacktrackStepIntended(vs, vs[j].Position, vs[j].Weight - 1).value;
      assert Fits(vs, parents, start, mapTiles, ts, 0);
      RetraceIntendedSucceeds(vs, parents, start, mapTiles, ts, k);
    }
  }
}
