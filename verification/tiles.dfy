/**
 * The map geometry and the packed tile lookup shared by both game engines
 * (Game/Game.h, GameGetTile in Game/Game.c and Game/GameWindow.c).
 */
module Tiles {
  import opened Size
  import opened Point

  const MAP_WIDTH: nat := 121
  const MAP_HEIGHT: nat := 48

  /** Bytes of packed map data: 121 * 48 tiles at four tiles per byte. */
  const MAP_BYTES: nat := 1452

  /** TileType_t, in its declaration order: the 2-bit codes 0..3. */
  datatype TileType = Empty | Stone | Water | Grass

  function TileFromCode(c: nat): TileType
    requires c < 4
  {
    [Empty, Stone, Water, Grass][c]
  }

  function TileCode(t: TileType): (c: nat)
    ensures c < 4 && TileFromCode(c) == t
  {
    match t
    case Empty => 0
    case Stone => 1
    case Water => 2
    case Grass => 3
  }

  /** Inside the MAP_WIDTH x MAP_HEIGHT map. */
  predicate InMap(p: Point)
  {
    p.X < MAP_WIDTH && p.Y < MAP_HEIGHT
  }

  /**
   * The row-major tile number `p.Y * MAP_WIDTH + p.X`. It is computed in a
   * uint16_t, which it never overflows: at most 255 * 121 + 255.
   */
  function TileNumber(p: Point): (n: nat)
    ensures n <= 255 * MAP_WIDTH + 255 < 0x1_0000
    ensures InMap(p) ==> n < MAP_WIDTH * MAP_HEIGHT && n / 4 < MAP_BYTES
  {
    p.Y * MAP_WIDTH + p.X
  }

  /** 1 << (2 * k): the weight of the k-th tile of a byte. */
  function Pow4(k: nat): nat
    requires k < 4
  {
    [1, 4, 16, 64][k]
  }

  /** `(b >> (k << 1)) & 0b11`: the 2-bit field of the k-th tile in byte b. */
  function TileField(b: U8, k: nat): (c: nat)
    requires k < 4
    ensures c < 4
  {
    (b / Pow4(k)) % 4
  }

  /**
   * GameGetTile: the tile at p, read from the packed map bytes. mapTiles is
   * the program memory from the map table onwards; the requirement is that
   * the byte read exists. Tile n is byte n / 4 of the map, and when that
   * byte packs four codes, the tile read is the one whose code sits at
   * place n % 4 of the group.
   */
  function GetTile(mapTiles: seq<U8>, p: Point): (t: TileType)
    requires TileNumber(p) / 4 < |mapTiles|
    ensures forall cs :: |cs| == 4 && (forall i :: 0 <= i < 4 ==> cs[i] < 4) && mapTiles[TileNumber(p) / 4] == GroupValue(cs) ==>
      TileCode(t) == cs[TileNumber(p) % 4]
  {
    var n := TileNumber(p);
    GroupFields(mapTiles[n / 4], n % 4);
    TileFromCode(TileField(mapTiles[n / 4], n % 4))
  }

  /** The k-th field of a byte that packs a group is that group's k-th code. */
  lemma GroupFields(b: U8, k: nat)
    requires k < 4
    ensures forall cs :: |cs| == 4 && (forall i :: 0 <= i < 4 ==> cs[i] < 4) && b == GroupValue(cs) ==> TileField(b, k) == cs[k]
  {
    forall cs | |cs| == 4 && (forall i :: 0 <= i < 4 ==> cs[i] < 4) && b == GroupValue(cs)
      ensures TileField(b, k) == cs[k]
    {
      TileFieldOfGroup(cs, k);
    }
  }

  /** The value of up to four tile codes packed low tile first. */
  function GroupValue(cs: seq<nat>): (v: nat)
    requires |cs| <= 4 && forall i :: 0 <= i < |cs| ==> cs[i] < 4
    ensures |cs| < 4 ==> v < Pow4(|cs|)
    ensures v < 256
  {
    if cs == [] then 0 else GroupValue(cs[..|cs| - 1]) + cs[|cs| - 1] * Pow4(|cs| - 1)
  }

  /** The k-th 2-bit field of a packed group is the k-th code of the group. */
  lemma {:induction false} TileFieldOfGroup(cs: seq<nat>, k: nat)
    requires |cs| == 4 && forall i :: 0 <= i < 4 ==> cs[i] < 4
    requires k < 4
    ensures TileField(GroupValue(cs), k) == cs[k]
  {
    var c0, c1, c2, c3 := cs[0], cs[1], cs[2], cs[3];
    assert cs[..1][..0] == [] && cs[..2][..1] == cs[..1] && cs[..3][..2] == cs[..2] && cs[..4][..3] == cs[..3];
    assert GroupValue(cs[..1]) == c0;
    assert GroupValue(cs[..2]) == c0 + 4 * c1;
    assert GroupValue(cs[..3]) == c0 + 4 * c1 + 16 * c2;
    assert cs[..4] == cs;
    var v := c0 + 4 * c1 + 16 * c2 + 64 * c3;
    assert GroupValue(cs) == v;
    if k == 0 {
      SplitFour(c0, c1 + 4 * c2 + 16 * c3);
      assert TileField(v, 0) == v % 4;
    } else if k == 1 {
      assert v / 4 == c1 + 4 * c2 + 16 * c3;
      SplitFour(c1, c2 + 4 * c3);
      assert TileField(v, 1) == (v / 4) % 4;
    } else if k == 2 {
      assert v / 16 == c2 + 4 * c3;
      SplitFour(c2, c3);
      assert TileField(v, 2) == (v / 16) % 4;
    } else {
      assert v / 64 == c3;
      assert TileField(v, 3) == (v / 64) % 4;
    }
  }

  /** The low 2-bit field and the rest of a + 4 * b, for a below four. */
  lemma SplitFour(a: nat, b: nat)
    requires a < 4
    ensures (a + 4 * b) % 4 == a && (a + 4 * b) / 4 == b
  {
  }

  /** GameGetTileCharacter: the glyph the renderer draws for a tile. */
  function TileCharacter(t: TileType): char
  {
    match t
    case Stone => '#'
    case Water => '~'
    case Grass => '.'
    case Empty => ' '
  }
}
