/**
 * The map packer of MapTools/MapTools.cs: each character of the map file
 * becomes a 2-bit tile code, and every four consecutive codes become one byte,
 * emitted as a "0xHH," line of the generated mapTiles table.
 */
module MapTools {
  import opened Size
  import opened Point
  import opened Wrappers
  import opened Tiles

  /** The character switch: '#' stone, '~' water, '.' grass, anything else empty. */
  function CodeOf(c: char): (code: nat)
    ensures code < 4
    ensures code == 1 <==> c == '#'
    ensures code == 2 <==> c == '~'
    ensures code == 3 <==> c == '.'
  {
    match c
    case '#' => 1
    case '~' => 2
    case '.' => 3
    case _ => 0
  }

  /** The packer's codes are the engine's TileType_t order: it reads back what the renderer draws. */
  lemma CodeOfTileCharacter(t: TileType)
    ensures TileFromCode(CodeOf(TileCharacter(t))) == t
  {
  }

  predicate AllCodes(cs: seq<nat>) { forall i :: 0 <= i < |cs| ==> cs[i] < 4 }

  function Codes(s: string): (cs: seq<nat>)
    ensures |cs| == |s| && AllCodes(cs)
  {
    seq(|s|, i requires 0 <= i < |s| => CodeOf(s[i]))
  }

  /** The map file's lines run together: a line break adds no tile. */
  function Flatten(lines: seq<string>): string
  {
    if lines == [] then [] else Flatten(lines[..|lines| - 1]) + lines[|lines| - 1]
  }

  /** One byte per complete group of four codes, low tile in the low bits; a trailing partial group is dropped. */
  function Packed(cs: seq<nat>): (bytes: seq<U8>)
    requires AllCodes(cs)
    ensures |bytes| == |cs| / 4
  {
    seq(|cs| / 4, i requires 0 <= i < |cs| / 4 => GroupValue(cs[4 * i .. 4 * i + 4]))
  }

  /** Appending a code adds a byte exactly when it completes a group. */
  lemma {:induction false} PackedSnoc(cs: seq<nat>, c: nat)
    requires AllCodes(cs) && c < 4
    ensures Packed(cs + [c]) ==
      if (|cs| + 1) % 4 == 0 then Packed(cs) + [GroupValue(cs[|cs| - 3..] + [c])] else Packed(cs)
  {
    var ds := cs + [c];
    var n := |cs| / 4;
    forall i | 0 <= i < n
      ensures ds[4 * i .. 4 * i + 4] == cs[4 * i .. 4 * i + 4]
    {
    }
    if (|cs| + 1) % 4 == 0 {
      assert ds[4 * n .. 4 * n + 4] == cs[|cs| - 3..] + [c];
      assert Packed(ds) == Packed(cs) + [GroupValue(cs[|cs| - 3..] + [c])];
    } else {
      assert Packed(ds) == Packed(cs);
    }
  }

  /** The value of the pending codes of the last incomplete group. */
  function Pending(cs: seq<nat>): nat
    requires AllCodes(cs)
  {
    GroupValue(cs[|cs| - |cs| % 4..])
  }

  function HexDigit(d: nat): char
    requires d < 16
  {
    "0123456789ABCDEF"[d]
  }

  /** tileVal.ToString("X2") between "0x" and ",": one line of the generated table. */
  function HexLine(v: U8): string
  {
    "0x" + [HexDigit(v / 16), HexDigit(v % 16)] + ","
  }

  function HexValue(c: char): Option<nat>
  {
    if '0' <= c <= '9' then Some(c as int - '0' as int)
    else if 'A' <= c <= 'F' then Some(c as int - 'A' as int + 10)
    else None
  }

  /** How a C compiler reads a "0xHH," initialiser back. */
  function ParseHexLine(s: string): Option<U8>
  {
    if |s| == 5 && s[..2] == "0x" && s[4] == ',' && HexValue(s[2]).Some? && HexValue(s[3]).Some?
    then Some(HexValue(s[2]).value * 16 + HexValue(s[3]).value)
    else None
  }

  /** Every emitted line denotes exactly the byte it was printed from. */
  lemma HexLineRoundTrip(v: U8)
    ensures ParseHexLine(HexLine(v)) == Some(v)
  {
    var hi, lo := v / 16, v % 16;
    assert HexValue(HexDigit(hi)) == Some(hi);
    assert HexValue(HexDigit(lo)) == Some(lo);
  }

  /**
   * Main's packing loops: tileNum counts the codes of the current group and
   * tileVal accumulates them; every fourth code emits the byte and restarts.
   */
  method PackMap(lines: seq<string>) returns (bytes: seq<U8>, text: seq<string>)
    ensures bytes == Packed(Codes(Flatten(lines)))
    ensures |text| == |bytes| && forall i :: 0 <= i < |bytes| ==> text[i] == HexLine(bytes[i])
  {
    bytes, text := [], [];
    var tileNum := 0;
    var tileVal := 0;
    ghost var done: string := [];
    for li := 0 to |lines|
      invariant done == Flatten(lines[..li])
      invariant bytes == Packed(Codes(done)) && tileNum == |done| % 4 && tileVal == Pending(Codes(done))
      invariant |text| == |bytes| && forall i :: 0 <= i < |bytes| ==> text[i] == HexLine(bytes[i])
    {
      var line := lines[li];
      assert lines[..li + 1][..li] == lines[..li];
      for ci := 0 to |line|
        invariant done == Flatten(lines[..li]) + line[..ci]
        invariant bytes == Packed(Codes(done)) && tileNum == |done| % 4 && tileVal == Pending(Codes(done))
        invariant |text| == |bytes| && forall i :: 0 <= i < |bytes| ==> text[i] == HexLine(bytes[i])
      {
        var c := line[ci];
        var tile := CodeOf(c);
        PackStep(done, c);
        // tileVal |= tile << (tileNum * 2): the bits are still clear, so | adds
        tileVal := tileVal + tile * Pow4(tileNum);
        tileNum := tileNum + 1;
        if tileNum > 3 {
          tileNum := 0;
          bytes := bytes + [tileVal];
          text := text + [HexLine(tileVal)];
          tileVal := 0;
        }
        done := done + [c];
        assert line[..ci + 1] == line[..ci] + [c];
      }
      assert line[..|line|] == line;
    }
    assert lines[..|lines|] == lines;
  }

  /** The effect of one more map character on the emitted bytes and the pending group. */
  lemma PackStep(done: string, c: char)
    ensures var cs, ncs, tile := Codes(done), Codes(done + [c]), CodeOf(c);
      && (|done| % 4 < 3 ==> Packed(ncs) == Packed(cs) && Pending(ncs) == Pending(cs) + tile * Pow4(|done| % 4))
      && (|done| % 4 == 3 ==> Packed(ncs) == Packed(cs) + [Pending(cs) + tile * Pow4(3)] && Pending(ncs) == 0)
  {
    var cs := Codes(done);
    assert Codes(done + [c]) == cs + [CodeOf(c)];
    PendingSnoc(cs, CodeOf(c));
    PackedSnoc(cs, CodeOf(c));
  }

  /** The pending group grows by the new code, or is emitted and restarts. */
  lemma {:induction false} PendingSnoc(cs: seq<nat>, c: nat)
    requires AllCodes(cs) && c < 4
    ensures |cs| % 4 < 3 ==> Pending(cs + [c]) == Pending(cs) + c * Pow4(|cs| % 4)
    ensures |cs| % 4 == 3 ==> Pending(cs + [c]) == 0 && Pending(cs) + c * Pow4(3) == GroupValue(cs[|cs| - 3..] + [c])
  {
    if |cs| % 4 < 3 {
      PendingGrows(cs, c);
    } else {
      PendingFlushes(cs, c);
    }
  }

  lemma {:induction false} PendingGrows(cs: seq<nat>, c: nat)
    requires AllCodes(cs) && c < 4 && |cs| % 4 < 3
    ensures Pending(cs + [c]) == Pending(cs) + c * Pow4(|cs| % 4)
  {
    var ds := cs + [c];
    var r := |cs| % 4;
    var g := cs[|cs| - r..];
    assert |ds| % 4 == r + 1 by {
      assert |cs| == 4 * (|cs| / 4) + r;
      assert |ds| == 4 * (|cs| / 4) + (r + 1);
    }
    assert ds[|ds| - (r + 1)..] == g + [c];
    assert (g + [c])[..|g|] == g;
    assert GroupValue(g + [c]) == GroupValue(g) + c * Pow4(r);
  }

  lemma {:induction false} PendingFlushes(cs: seq<nat>, c: nat)
    requires AllCodes(cs) && c < 4 && |cs| % 4 == 3
    ensures Pending(cs + [c]) == 0 && Pending(cs) + c * Pow4(3) == GroupValue(cs[|cs| - 3..] + [c])
  {
    var ds := cs + [c];
    var g := cs[|cs| - 3..];
    assert |ds| % 4 == 0 by {
      assert |cs| == 4 * (|cs| / 4) + 3;
      assert |ds| == 4 * (|cs| / 4 + 1);
    }
    assert ds[|ds|..] == [];
    assert (g + [c])[..|g|] == g;
  }

  /**
   * Round trip: taken as mapTiles, the emitted bytes make GameGetTile return
   * the tile of the n-th map character for every n below four times the
   * number of bytes emitted.
   */
  lemma PackThenGetTile(lines: seq<string>, bytes: seq<U8>, p: Point)
    requires bytes == Packed(Codes(Flatten(lines)))
    requires TileNumber(p) < 4 * |bytes|
    ensures TileNumber(p) < |Flatten(lines)|
    ensures GetTile(bytes, p) == TileFromCode(CodeOf(Flatten(lines)[TileNumber(p)]))
  {
    var cs := Codes(Flatten(lines));
    var n := TileNumber(p);
    var i, k := n / 4, n % 4;
    TileFieldOfGroup(cs[4 * i .. 4 * i + 4], k);
  }
}
