# Tower defence on a serial terminal, modelled in Dafny

The program is a tower-defence game for an 8-bit microcontroller that draws
on a serial (xterm-compatible) terminal. Bots enter a 121 x 48 tile map at
fixed entry points and walk towards a base. The player moves a cursor,
scrolls the view and spends gold on towers, and the towers shoot the bots
within range. This project models the game's engine and the small libraries
it rests on, and proves properties of that model.

| module | file | models |
|---|---|---|
| `Size` | size.dfy | `Game/Size.c`: width/height pairs of 8-bit extents |
| `Point` | point.dfy | `Game/Point.c`: 8-bit points and the four compass steps, wrapping like `uint8_t` |
| `CircularBuffer` | circular_buffer.dfy | `Game/CircularBuffer.c`: the count-tracked ring buffer behind the UART |
| `Terminal` | terminal.dfy | `Game/Terminal.c`: the ECMA-48 / xterm control sequences, appended to an output byte log |
| `Tiles` | tiles.dfy | the map geometry and `GameGetTile`, the 2-bit packed tile lookup both engines share |
| `MapTools` | map_tools.dfy | `MapTools/MapTools.cs`: the packer that turns a text map into the `mapTiles` table |
| `GameDefs` | game_defs.dfy | what both engines share: the constants and records of `Game/Game.h`, the scans by position, the escape-sequence grammar of `GameParseInput`, and the backtracking walk and layering of the path-finding pool |
| `Game` | game.dfy | `Game/Game.c`, the engine with towers |
| `GameWindow` | game_window.dfy | `Game/GameWindow.c`, an older engine without towers |
| `Wrappers` | wrappers.dfy | the `Option` type |

How the C program maps onto the model:

- **Globals.** Each engine's C globals become the fields of one `Engine`
  object. The fixed tables `bots`, `towers`, `visitedPoints` and the
  parameter buffers stay arrays of the same capacity, filled up to their
  current counts. A *live* bot below has hit points left; an *active* bot
  is one in a slot below `botCount`.
- **Static locals.** `GameStep`'s static `i` and `GameParseInput`'s static
  `csCount` and `params` are fields too.
- **Map memory.** `mapTiles` is the program memory from the map table on.
  In `Game.c` the cursor can stand one tile past the map in both axes, and
  `GameNewTower` still reads the tile under it. That engine therefore needs
  1483 bytes there (`Game.MAP_MEMORY`), 31 more than the 1452 of the map
  itself.
- **Repaints.** The map repaints that `Game.c` makes through
  `GameRenderTilePosition` are kept in the ghost log `redraws`, in the order
  they happen. All other rendering is left out.
- **Specification functions.** Every loop of the engines is a method proved
  against a function that defines what it computes:
  - `Search`, `Wave`, `Pass` and `Expand` for the flood of `GameComplexMove`;
  - `Retrace` for its backtracking, and `Routed` for the tile the two lead to;
  - `SearchMove` and `StepMove` for the move of one bot in `GameStep`;
  - `Volley` for the tower loop;
  - `Relocation` for `GameRandomizeBot`;
  - `DecoderState` for the input decoder;
  - `Spawned` for `GameWindow.c`'s spawning loop;
  - `Packed` for the map packer.

  The properties are then proved as lemmas about those functions.
- **The step's success flag.** `Game/Point.c` defines `PointAddDirection`
  as a `void` step that wraps. `Game/Point.h:24` declares it as returning
  `bool`, and both engines branch on that result. The `bool` body is not
  part of this model. `Point.TryAddDirection` reads the result as "no
  coordinate wrapped", and the engines use that reading. On a failed step
  they also take the point as unchanged. This matters only for the negated
  East probe of `VisitedPointByPointWeight`, which then looks at the tile
  itself.
- **Shared code.** `GameWindow.c`'s `GameGetTile`, `GameSimpleMove` and
  `GameMoveBot` are `Game.c`'s code without the tower checks. Its engine
  therefore reuses `Tiles.GetTile`, `Game.SimpleMoveOutcome` and
  `Game.MoveOutcome` with an empty tower list.
- **The wave-propagation pool.** In `Game.c` the pool stays layered
  (`GameDefs.Layered`), and every entry after the start is an open,
  unpooled four-neighbour of an earlier entry, one heavier. `GameWindow.c`
  does not look up East and South neighbours before storing them, so its
  pool only stays linked (`GameWindow.Grown`), and positions may repeat.

## Model

Proof helpers that model nothing of their own (sequence and arithmetic facts such as `CircularBuffer.Window`, `Game.IndexWraps`, `Tiles.GroupFields` or `Terminal.Concatenated`) have no row.

| member | source | states |
|---|---|---|
| Size.SizesEqual | Game/Size.c:7-10 | true exactly when the two sizes are equal |
| Size.SizesEqualReflexive | Game/Size.c:7-10 | every size equals itself |
| Size.SizesEqualSymmetric | Game/Size.c:7-10 | the comparison does not depend on argument order |
| Size.SizesEqualTransitive | Game/Size.c:7-10 | equal sizes chain |
| Point.PointsEqual | Game/Point.c:10-13 | true exactly when the two points are equal |
| Point.PointsEqualReflexive | Game/Point.c:10-13 | every point equals itself |
| Point.PointsEqualSymmetric | Game/Point.c:10-13 | the comparison does not depend on argument order |
| Point.PointAdd | Game/Point.c:29-33 | each coordinate is the sum modulo 256, as `uint8_t` fields truncate it |
| Point.PointAddCommutes | Game/Point.c:29-33 | point addition is commutative |
| Point.PointAddDirection | Game/Point.c:38-55 | North and South keep X, East and West keep Y; a step that does not wrap reaches the four-neighbour on the side the direction names; one that wraps lands on the far edge (255 or 0) |
| Point.PointAddDirectionMovesOneCoordinate | Game/Point.c:38-55 | North, South, East and West move exactly one coordinate by one in their sense, modulo 256 |
| Point.PointAddDirectionWraps | Game/Point.c:38-55 | at the grid's edges a step wraps to the opposite edge |
| Point.OppositeStepsCancel | Game/Point.c:38-55 | a step followed by the opposite step returns to the start |
| Point.TryAddDirection | Game/Point.h:24 | the step the engines test for success fails exactly when a coordinate would wrap; otherwise it is `PointAddDirection`'s point, a four-neighbour |
| Point.PointInSize | Game/Point.c:57-60 | true exactly when both coordinates are below the size's extents, so never for a size with an empty extent |
| Point.PointInSizeMonotone | Game/Point.c:57-60 | a point inside a size stays inside any larger size; nothing lies inside an empty one |
| CircularBuffer.CircularBuffer.Contents | Game/CircularBuffer.c:10-51 | the queued elements number exactly `Count` |
| CircularBuffer.CircularBuffer.constructor | Game/CircularBuffer.c:10-51 | a new buffer of the given size is empty and consistent |
| CircularBuffer.CircularBuffer.IsEmpty | Game/CircularBuffer.c:10-13 | true exactly when the count is 0, and so when no element is queued |
| CircularBuffer.CircularBuffer.IsFull | Game/CircularBuffer.c:18-21 | true exactly when the count equals the size, and so when every slot is queued |
| CircularBuffer.CircularBuffer.Put | Game/CircularBuffer.c:27-36 | the element is stored at `Write`, which advances and wraps; the count grows unless full; when not full the contents become the old contents plus the element; when full the write overwrites the oldest element |
| CircularBuffer.CircularBuffer.Get | Game/CircularBuffer.c:41-51 | returns `Buf[Read]` and advances `Read`, wrapping; the count drops unless empty; when not empty the result is the oldest element and the contents lose it |
| CircularBuffer.FifoOrder | Game/CircularBuffer.c:27-51 | two elements put into a new buffer with room for them come back first to last, and the buffer is then empty |
| Terminal.Ascii | Game/Terminal.c:10-19 | a string literal's bytes, one per character, in order |
| Terminal.Decimal | Game/Terminal.c:55-63 | `%u` renders one to three digits for numbers below 1000, with no leading zero |
| Terminal.DecimalRoundTrip | Game/Terminal.c:55-63 | reading the rendered digits back gives the number |
| Terminal.CupParameters | Game/Terminal.c:55-63 | the `row;colH` text is at most 8 characters, so it fits the 9-byte buffer with its NUL |
| Terminal.IndexOf | Game/Terminal.c:55-63 | the first occurrence of a byte, or none when it does not occur |
| Terminal.IndexOfAfterDigits | Game/Terminal.c:55-63 | in digits followed by `;`, the first `;` is the one after the digits |
| Terminal.CupRoundTrip | Game/Terminal.c:42-63 | a terminal parsing the cursor-position parameters lands on the requested 0-based cell |
| Terminal.Parameter | Game/Terminal.c:104-148 | the `%um` and `%u@` texts are 2 to 4 bytes ending in their final byte, fit the 5-byte buffers, and their digits denote the number |
| Terminal.Terminal.constructor | Game/Terminal.c:104-139 | nothing has been sent and both remembered colours are 0 |
| Terminal.Terminal.RequestSize | Game/Terminal.c:24-28 | appends CSI `18t` |
| Terminal.Terminal.CursorHome | Game/Terminal.c:33-37 | appends CSI `H` |
| Terminal.Terminal.CursorMove | Game/Terminal.c:42-50 | appends the cursor-position sequence for the point |
| Terminal.Terminal.CursorMoveXY | Game/Terminal.c:55-63 | appends the cursor-position sequence for (x, y), 1-based on the wire |
| Terminal.Terminal.CursorHide | Game/Terminal.c:68-72 | appends CSI `?25l` |
| Terminal.Terminal.CursorShow | Game/Terminal.c:77-81 | appends CSI `?25h` |
| Terminal.Terminal.UseAlternateBuffer | Game/Terminal.c:86-90 | appends CSI `?47h` |
| Terminal.Terminal.ClearScreen | Game/Terminal.c:95-99 | appends CSI `2J` |
| Terminal.Terminal.SetFgColor | Game/Terminal.c:104-119 | appends the foreground sequence only when the colour differs from the last one sent, and remembers it; the background colour is untouched |
| Terminal.Terminal.SetBgColor | Game/Terminal.c:124-139 | the same for the background colour |
| Terminal.Terminal.InsertSpaces | Game/Terminal.c:141-148 | appends CSI `n@` |
| Terminal.ColorSettersSuppressRepeats | Game/Terminal.c:104-139 | setting the same two colours twice emits each change at most once, and the two remembered colours are independent |
| Tiles.TileCode | Game/Game.h:52-57 | each tile type has a 2-bit code that decodes back to it |
| Tiles.TileNumber | Game/Game.c:118-123 | the row-major tile number fits the `uint16_t`; on the map it indexes a byte of the 1452-byte table |
| Tiles.TileField | Game/Game.c:118-123 | a 2-bit field is below 4 |
| Tiles.GetTile | Game/Game.c:118-123 | tile n is read from byte n / 4; when that byte packs four codes, the tile's code is the group's code at place n % 4 |
| Tiles.GroupValue | MapTools/MapTools.cs:52 | up to four codes packed low tile first fit a byte |
| Tiles.TileFieldOfGroup | Game/Game.c:118-123 | the k-th 2-bit field of a packed group is the group's k-th code |
| MapTools.CodeOf | MapTools/MapTools.cs:36-50 | `#` is 1, `~` is 2, `.` is 3, every other character 0 |
| MapTools.CodeOfTileCharacter | MapTools/MapTools.cs:36-50 | the packer's codes invert the engine's tile glyphs (`Game/Game.c:98-113`) |
| MapTools.Codes | MapTools/MapTools.cs:36-50 | one code below 4 per character |
| MapTools.Packed | MapTools/MapTools.cs:52-58 | one byte per complete group of four codes |
| MapTools.PackedSnoc | MapTools/MapTools.cs:52-58 | a further code adds a byte exactly when it completes a group |
| MapTools.HexLineRoundTrip | MapTools/MapTools.cs:56 | every emitted `0xHH,` line denotes exactly the byte it was printed from |
| MapTools.PackMap | MapTools/MapTools.cs:21-62 | the emitted bytes are the packing of the codes of all map characters, line breaks adding none, and each emitted line prints its byte |
| MapTools.PackStep | MapTools/MapTools.cs:52-58 | one more character either extends the pending group or emits it and restarts |
| MapTools.PendingSnoc | MapTools/MapTools.cs:52 | `tileVal \|= tile << (tileNum * 2)` adds the code's weight to the pending group |
| MapTools.PackThenGetTile | MapTools/MapTools.cs:21-62 | taken as `mapTiles`, the emitted bytes make `GameGetTile` return the tile of the n-th map character (`Game/Game.c:118-123`) |
| GameDefs.FindAt | Game/Game.c:128-139 | the scan finds the first record on the point, or reports none exactly when no record is on it |
| GameDefs.FindAtExtend | Game/Game.c:128-139 | scanning one more record keeps a found record, or finds the new one when it stands on the point |
| GameDefs.ContinuedCount | Game/Game.c:550-665 | the escape-sequence states only move forward, never past 15, and the parameter states follow `ESC [ 8 ;` |
| GameDefs.ParamSlot | Game/Game.c:650-665 | a parameter digit goes to `params[0][csCount - 4]` or `params[1][csCount - 10]`, inside the 10 buffer bytes |
| GameDefs.ClampToByte | Game/Game.c:667-690 | a size extent is clamped to 255 |
| GameDefs.Classify | Game/Game.c:542-696 | a byte continues a sequence exactly when the grammar says so; it completes a size report exactly on `t` after a width digit; keys act only outside a sequence, arrows only after `ESC [` |
| GameDefs.DecoderState | Game/Game.c:542-696 | the decoder state after any input stays within 0..15 |
| GameDefs.DecoderStateAppend | Game/Game.c:542-696 | decoding a + b is decoding a, then b |
| GameDefs.DecoderStateStep | Game/Game.c:542-696 | the state after one more byte is the grammar's step from the state before |
| GameDefs.DigitsAdvance | Game/Game.c:650-665 | each parameter digit advances the state by one |
| GameDefs.SizeReportAccepted | Game/Game.c:640-690 | a reply `ESC [ 8 ; h ; w t` with 1 to 5 digits per number is accepted, and the decoder restarts after it |
| GameDefs.Probe | Game/Game.c:740-781 | a probe finds an entry at the probed point of the requested weight |
| GameDefs.BacktrackStep | Game/Game.c:740-781 | the entry found has the requested weight and lies on p or next to it, never on p's East neighbour |
| GameDefs.Retrace | Game/Game.c:1044-1049 | the walk ends on an entry of weight at most 1, exactly 1 when it starts from a positive weight |
| GameDefs.RetraceOn | Game/Game.c:1044-1049 | a walk that goes on ends on an entry of weight 1 |
| GameDefs.RetraceStep | Game/Game.c:1044-1049 | one step of the walk either fails the walk or continues it from the entry found |
| GameDefs.BacktrackMissesEast | Game/Game.c:754 | the probe as written misses a lighter neighbour lying East |
| GameDefs.RetraceMissesEast | Game/Game.c:1044-1049 | in a pool where (0, 0) has weight 2 and its only weight-1 neighbour (1, 0) lies East, the walk back as written finds nothing, while the intended walk reaches slot 1 |
| GameDefs.PoolGrows | Game/Game.c:950-1042 | storing an open, unpooled, tower-free neighbour one heavier keeps the pool layered |
| GameDefs.WeightOneIsNextToStart | Game/Game.c:1044-1059 | in a layered pool an entry of weight 1 is an open four-neighbour of the start |
| GameDefs.RetraceEndsNextToStart | Game/Game.c:1044-1059 | a successful walk ends on an open, tower-free four-neighbour of the start |
| GameDefs.BacktrackStepIntended | Game/Game.c:740-781 | the corrected probe returns a four-neighbour of the requested weight |
| GameDefs.BacktrackStepIntendedFinds | Game/Game.c:740-781 | the corrected probe finds a neighbour whenever one of that weight is pooled, including the one the as-written probe misses |
| GameDefs.RetraceIntended | Game/Game.c:1044-1049 | the corrected walk ends on an entry of weight at most 1 |
| GameDefs.RetraceIntendedSucceeds | Game/Game.c:1044-1059 | with the corrected probe the walk from any entry of a layered pool always ends on an open, tower-free four-neighbour of the start |
| Game.TowerAttackDamage | Game/Game.c:144-157 | damage is 2, 5 or 9, and positive exactly for levels 1 to 3 |
| Game.DamageGrowsWithLevel | Game/Game.c:144-157 | a higher level does strictly more damage |
| Game.AfterAttack | Game/Game.c:247-257 | hit points drop by the damage and stop at 0, reaching 0 exactly when the damage covers them |
| Game.Abs | Game/Game.c:1065-1068 | the absolute value |
| Game.SimpleMoveDirections | Game/Game.c:850-936 | the first direction is along the axis farther from the base (Y on a tie), the second along the other; West exactly when right of the base, North exactly when below it |
| Game.FirstDirectionApproachesBase | Game/Game.c:850-936 | off the base, the first direction never wraps and brings the bot one tile closer |
| Game.SecondDirectionSidesteps | Game/Game.c:850-936 | the second direction closes in unless the bot is level with the base on that axis, where it steps one tile away |
| Game.Target | Game/Game.c:797-806 | the tower's target is the last live bot within range, or none when no live bot is in range |
| Game.Shot | Game/Game.c:797-810 | only the tower's target is hit: it keeps its tile and search count and loses hit points exactly when the tower's level is 1 to 3; its tile is repainted exactly when the shot kills it; with no target nothing changes |
| Game.Volley | Game/Game.c:791-811 | a volley keeps the number of bots |
| Game.VolleyNext | Game/Game.c:791-811 | the volley of j + 1 towers is the volley of j towers, then tower j's shot |
| Game.VolleyOnlyWounds | Game/Game.c:791-811 | a volley only lowers hit points; positions and search counts stay |
| Game.VolleyKeepsPlaces | Game/Game.c:791-811 | a volley moves no bot |
| Game.MoveOutcome | Game/Game.c:1105-1131 | a refused step leaves the bot; a step that moves goes one tile in the direction, onto an open tile that is not the base and holds no bot |
| Game.SimpleMoveOutcome | Game/Game.c:850-936 | a failed greedy step leaves the bot; otherwise it moves at most one tile, onto an open tile |
| Game.Admit | Game/Game.c:950-1042 | a neighbour is admitted exactly when the step succeeds onto an open tile not yet in the pool |
| Game.Expand | Game/Game.c:950-1042 | a neighbour check adds at most one entry, on the map, within the pool's capacity |
| Game.ExpandStores | Game/Game.c:950-1042 | the check appends the admitted neighbour with the next weight unless the pool is full, and reports the base exactly when it stored it |
| Game.Pass | Game/Game.c:950-1042 | a pass over one entry keeps the pool on the map and within capacity |
| Game.PassGrows | Game/Game.c:950-1042 | a pass only appends, and a reported base is an entry it stored |
| Game.WaveGrows | Game/Game.c:950-1042 | the flood loop only appends, within the 120 entries, and a reported index holds the base |
| Game.Search | Game/Game.c:941-1042 | the pool starts with the bot's tile at weight 0, and a reported index holds the base |
| Game.ExpandLayered | Game/Game.c:950-1042 | a neighbour check keeps the pool layered |
| Game.PassLayered | Game/Game.c:950-1042 | a pass keeps the pool layered |
| Game.WaveUnfolds | Game/Game.c:950-1042 | the loop from entry i is the pass over i, then the loop from i + 1 unless the pass ended it |
| Game.NextEntryLight | Game/Game.c:950-1042 | in a layered pool the next entry to expand is at most one lighter than the newest |
| Game.WaveLayered | Game/Game.c:950-1042 | the flood loop keeps the pool layered |
| Game.AfterPassLayered | Game/Game.c:950-1042 | the loop after a pass that did not end it keeps the pool layered |
| Game.SearchLayered | Game/Game.c:941-1042 | the flood leaves a layered pool grown from the bot's tile: breadth-first, no position twice, no tower, each entry next to a parent one lighter |
| Game.RoutedNextToStart | Game/Game.c:941-1049 | a tile the path search leads to is an open four-neighbour of the bot's tile |
| Game.StepMoveKeeps | Game/Game.c:813-831 | the step's move keeps the bot's hit points and a search count within 5; the bot stays, steps onto an open four-neighbour, or is relocated to the random tile with a fresh count |
| Game.DrawBelow | Game/Game.c:1077-1085 | the draw loop keeps the first byte below the bound and skips only bytes at or above it |
| Game.DrawByte | Game/Game.c:1077-1085 | the byte kept is below the bound, and the stream moves past it |
| Game.Relocation | Game/Game.c:1070-1103 | a relocation ends on the map, after at least two draws |
| Game.RelocationVacant | Game/Game.c:1070-1103 | the tile taken is not the base, not stone and holds no bot |
| Game.RelocationDraws | Game/Game.c:1070-1103 | a relocation starts with an X draw below 121 and a Y draw below 48 |
| Game.RelocationStep | Game/Game.c:1070-1103 | a vacant draw is taken; any other restarts the loop after it |
| Game.ReportedExtent | Game/Game.c:667-690 | the default stays when nothing converts; otherwise the value, clamped to 255 |
| Game.InspectTextFits | Game/Game.c:628-638 | the `%uHP` status fits its 5-byte buffer exactly for hit points below 100 |
| Game.Scroll | Game/Game.c:562-597 | each arrow moves the view at most one cell on its own axis, never below 0 and never out of scrolling range; other keys leave the view |
| Game.ScrollBack | Game/Game.c:562-597 | scrolling down then up, or right then left, restores the view exactly when the first step moved or the view was at 0 |
| Game.Steer | Game/Game.c:599-621 | each of w/s/a/d moves the cursor one tile on its axis, stopping at 0 and at `MAP_WIDTH` / `MAP_HEIGHT`; other keys leave it |
| Game.SteerLeavesMap | Game/Game.c:605-615 | the `s` and `d` guards let the cursor step one tile past the map |
| Game.Inspection | Game/Game.c:628-638 | the space key reports the hit points of the first bot on the cursor exactly when some bot stands there |
| Game.Engine.constructor | Game/Game.c:34-50 | the power-on state: 30000 gold, no bots, towers or pool entries, the default 80 x 24 window |
| Game.Engine.TowerByPoint | Game/Game.c:128-139 | the first tower on the point, if any |
| Game.Engine.BotByPoint | Game/Game.c:231-242 | the first bot, live or dead, on the point, if any |
| Game.Engine.VisitedPointByPoint | Game/Game.c:724-735 | the first pool entry on the point, if any |
| Game.Engine.BuildOutcome | Game/Game.c:162-212 | a tower is built exactly when there is room and gold, and the cursor is on a non-stone, visible, tower-free tile that is neither the base nor an entry point and holds no live bot; the limit is reported first, then the gold |
| Game.Engine.BuildVerdict | Game/Game.c:162-212 | the tests in the source's order give `BuildOutcome` |
| Game.Engine.NewTower | Game/Game.c:162-212 | a build appends a level-1 tower under the cursor and costs 1500 gold; any other outcome changes nothing |
| Game.Engine.IsEntryPoint | Game/Game.c:192-199 | true exactly when the point is an entry point |
| Game.Engine.AppendTower | Game/Game.c:201-210 | the tower list gains a level-1 tower under the cursor, and gold drops by 1500 |
| Game.Engine.NewBot | Game/Game.c:217-226 | while there is room, the next slot becomes a bot with the level's hit points on the point; no other slot changes |
| Game.Engine.AttackBot | Game/Game.c:247-257 | only the target's hit points drop, as `AfterAttack` says; its tile is repainted exactly when they reach 0 |
| Game.Engine.Relocate | Game/Game.c:1124-1127 | the bot's old tile is repainted and only its slot changes |
| Game.Engine.MoveVerdict | Game/Game.c:1105-1131 | the tests in the source's order give `MoveOutcome` |
| Game.Engine.MoveBot | Game/Game.c:1105-1131 | the bot ends as `MoveOutcome` says, no other bot changes, and its old tile is repainted exactly when it moves |
| Game.Engine.SimpleMove | Game/Game.c:850-936 | the bot ends as `SimpleMoveOutcome` says, no other bot changes, and the search counts stay bounded |
| Game.Engine.VisitedPointStore | Game/Game.c:701-711 | appends the entry exactly when the pool has room, and reports its index |
| Game.Engine.VisitedPointsClear | Game/Game.c:716-719 | empties the pool |
| Game.Engine.ProbeAt | Game/Game.c:740-781 | one probe is `Probe` on the filled part of the pool |
| Game.Engine.VisitedPointByPointWeight | Game/Game.c:740-781 | the result is `BacktrackStep` on the filled part of the pool |
| Game.Engine.Candidate | Game/Game.c:955-1027 | the neighbour tests give `Admit` |
| Game.Engine.ExpandNeighbor | Game/Game.c:950-1042 | one neighbour check does to the pool what `Expand` says |
| Game.Engine.ExpandPair | Game/Game.c:950-1042 | two checks follow `Pass` |
| Game.Engine.ExpandEntry | Game/Game.c:950-1042 | the flood from entry i either ends with the pass's outcome or continues from entry i + 1 |
| Game.Engine.Flood | Game/Game.c:945-1042 | the pool and the reported base are those of `Search` |
| Game.Engine.Spread | Game/Game.c:950-1042 | the flood loop reaches `Wave`'s result |
| Game.Engine.Backtrack | Game/Game.c:1044-1049 | the walk from the stored base ends where `Retrace` says |
| Game.Engine.BacktrackFrom | Game/Game.c:1044-1049 | one step keeps the walk's result and lowers the weight |
| Game.Engine.Route | Game/Game.c:945-1049 | the pool is `Search`'s, layered from the bot's tile; the tile found is `Routed`'s, none included; it lies next to the bot, is open, and ends the walk back from the stored base |
| Game.Engine.ComplexMove | Game/Game.c:941-1063 | the bot moves exactly when it has searches left and `Routed` finds a tile, and then onto that tile with a fresh search count; a bot out of searches leaves the pool untouched; a failure leaves the bot |
| Game.Engine.TargetOf | Game/Game.c:797-806 | the scan finds `Target` |
| Game.Engine.FireTowers | Game/Game.c:791-811 | the bots end as `Volley` says, and the tiles of the bots it kills are repainted in order |
| Game.Engine.FireTower | Game/Game.c:791-811 | one tower carries the volley on by one shot |
| Game.Engine.RandomizeBot | Game/Game.c:1070-1103 | the bot moves to `Relocation`'s vacant tile, its search count restarts, and its old tile is repainted |
| Game.Engine.DrawVacant | Game/Game.c:1072-1097 | the draw loop yields `Relocation`'s tile |
| Game.Engine.DrawStep | Game/Game.c:1072-1097 | one round either ends the relocation or restarts it further on |
| Game.Engine.DrawTile | Game/Game.c:1072-1097 | one round draws an X, then a Y, and decides whether the tile is vacant |
| Game.Engine.Advance | Game/Game.c:813-832 | reports the greedy step's success as `SimpleMoveOutcome` says and the path search's exactly when it runs and `Routed` finds a tile; the bot ends as `StepMove` says, no other bot changes, and search counts stay within 5 |
| Game.Engine.Retry | Game/Game.c:815-831 | after a failed greedy step: the path search succeeds exactly when the bot has searches left and `Routed` finds a tile; the bot ends as `SearchMove` says |
| Game.Engine.CountFailure | Game/Game.c:817-830 | below 5 failures the count rises by one; at 5 a far bot is relocated with a fresh count and a near one is held at 5 |
| Game.Engine.Spawn | Game/Game.c:838-841 | every entry point in turn gets a new bot while there is room, occupied or not, and no active bot changes |
| Game.Engine.Step | Game/Game.c:786-844 | from any valid state, including the first step of a game when there is no bot yet: the towers fire at index 0 as `Volley` says; when there is a bot, the indexed bot then ends as `StepMove` says and no other bot moves, and the index advances modulo the old bot count; with no bot yet, nothing moves and the index stays 0; new bots arrive at the entry points while there is room; search counts stay within 5 |
| Game.Engine.Turn | Game/Game.c:786-841 | a step with at least one bot: the volley, the indexed bot ending as `StepMove` says, the index advancing modulo the old count, and new bots at the entry points while there is room |
| Game.Engine.Tick | Game/Game.c:791-832 | the volley at index 0, then the indexed bot ends as `StepMove` says; every other bot ends as the volley left it |
| Game.NextIndex | Game/Game.c:834-835 | the index update is undefined exactly when there is no bot; otherwise it is the next index, or 0 after the last |
| Game.PowerOnStep | Game/Game.c:786-840 | in the power-on state there is no bot, the slot the step would move is the zeroed `Bot(0, (0, 0), 0)`, and the index update divides by zero |
| Game.Engine.Rotate | Game/Game.c:834-841 | the index advances modulo the bot count, each entry point in turn gets a fresh bot while there is room, and the earlier bots stay |
| Game.Engine.ParseByte | Game/Game.c:542-696 | one byte moves the decoder as the grammar says, stores a digit in its slot, applies a completed size report, scrolls, steers, builds or inspects, with the matching feedback |
| Game.Engine.Consume | Game/Game.c:547-549 | one pass of the input loop: the decoder advances as the grammar says, a build report answers `b` and an inspection the space bar, towers are only appended, and each costs 1500 gold |
| Game.Engine.ParseInput | Game/Game.c:542-696 | the decoder ends in `DecoderState`, the view stays in range, towers are only appended, and each costs 1500 gold |
| Game.Engine.Sequence | Game/Game.c:550-696 | bytes that continue, complete or break a sequence leave the cursor and act on the buffers and window size only |
| Game.Engine.Key | Game/Game.c:562-638 | the keys steer, scroll, build or inspect, and restart the decoder |
| Game.Engine.Command | Game/Game.c:623-638 | `b` builds as `BuildOutcome` says; space reports `Inspection` |
| Game.Engine.Move | Game/Game.c:562-621 | arrows scroll as `Scroll` says and w/s/a/d steer as `Steer` says |
| Game.Engine.Proceed | Game/Game.c:550-665 | a continuing byte moves the decoder and stores a digit in its slot |
| Game.Engine.ApplySizeReport | Game/Game.c:667-690 | the window size becomes the reported one, the view resets when it changed, and the buffers clear |
| Game.Engine.Strike | Game/Game.c:791-811 | the volley fires only at index 0 and moves no bot |
| GameWindow.LevelHead | Game/GameWindow.c:121 | the byte read is the low byte of the level name's address |
| GameWindow.LevelHeadIsNotHealth | Game/GameWindow.c:121 | a new bot gets the level's 10 hit points only when that low byte is 10; a name at 0x100 gives it 0 |
| GameWindow.NextBotStep | Game/GameWindow.c:606 | the next index is 0 or one more, and at most the bot count |
| GameWindow.BotStepPassesTable | Game/GameWindow.c:606 | with 32 bots the index reaches 32, one past the table |
| GameWindow.Admit | Game/GameWindow.c:722-812 | a neighbour is admitted exactly when the step succeeds onto a non-stone map tile that, for North and West only, is not yet pooled |
| GameWindow.Expand | Game/GameWindow.c:722-812 | a check adds at most one entry, on the map, within 150 entries |
| GameWindow.ExpandStores | Game/GameWindow.c:722-812 | the check appends the admitted neighbour unless the pool is full, and reports the base exactly when it stored it |
| GameWindow.Pass | Game/GameWindow.c:722-812 | a pass keeps the pool on the map and within capacity |
| GameWindow.PassGrows | Game/GameWindow.c:722-812 | a pass only appends, and a reported base is an entry it stored |
| GameWindow.WaveUnfolds | Game/GameWindow.c:722-812 | the loop from entry i is the pass over i, then the loop from i + 1 unless the pass ended it |
| GameWindow.WaveGrows | Game/GameWindow.c:722-812 | the flood only appends, within 150 entries, and a reported index holds the base |
| GameWindow.Search | Game/GameWindow.c:713-812 | the pool starts with the bot's tile at weight 0, and a reported index holds the base |
| GameWindow.PoolRepeats | Game/GameWindow.c:750-790 | East and South neighbours are stored without a pool lookup, so a tile can be pooled twice |
| GameWindow.ExpandGrown | Game/GameWindow.c:722-812 | a check keeps every entry linked to a parent one lighter next to it |
| GameWindow.PassGrown | Game/GameWindow.c:722-812 | a pass keeps the pool linked |
| GameWindow.WaveGrown | Game/GameWindow.c:722-812 | the flood loop keeps the pool linked |
| GameWindow.SearchGrown | Game/GameWindow.c:713-812 | the flood leaves a pool linked from the bot's tile |
| GameWindow.RoutedNextToStart | Game/GameWindow.c:713-819 | a tile the path search leads to is a non-stone map tile next to the bot's |
| GameWindow.StepMoveKeeps | Game/GameWindow.c:583-604 | the step's move keeps the bot's hit points; the bot stays, steps onto a non-stone map tile next to its own, or is relocated to the random tile with a fresh count |
| GameWindow.RetraceReachesStart | Game/GameWindow.c:814-828 | a successful walk ends on a non-stone map tile next to the bot |
| GameWindow.Steer | Game/GameWindow.c:403-426 | `d` stops at the last column; the other keys steer as in `Game.c` |
| GameWindow.SteerStopsAtLastColumn | Game/GameWindow.c:409-420 | the cursor stays in the map's columns but can still step below its last row |
| GameWindow.Arrivals | Game/GameWindow.c:609-615 | at most one new bot per remaining entry point and per free slot |
| GameWindow.ArrivalsFresh | Game/GameWindow.c:609-615 | new bots stand on free entry points, no two on the same one |
| GameWindow.ArrivalsCoverEntries | Game/GameWindow.c:609-615 | with room enough, every entry point ends up with a bot |
| GameWindow.ArrivalsStep | Game/GameWindow.c:609-615 | an occupied entry point is skipped and a free one taken |
| GameWindow.Enlist | Game/GameWindow.c:117-125 | filling slots keeps the table's size |
| GameWindow.EnlistSlots | Game/GameWindow.c:117-125 | exactly the filled slots change, each onto its tile, keeping its search count |
| GameWindow.Spawned | Game/GameWindow.c:609-615 | the spawning loop keeps the table's size and only raises the bot count, up to 32 |
| GameWindow.SpawnedStep | Game/GameWindow.c:609-615 | one round skips an occupied entry point or takes a free one |
| GameWindow.SpawnedEnlists | Game/GameWindow.c:609-615 | the loop puts new bots on the free entry points, in order, in the slots after the active bots |
| GameWindow.SpawnedCount | Game/GameWindow.c:609-615 | the loop adds one bot per arrival to the bot count |
| GameWindow.SpawnedTable | Game/GameWindow.c:609-615 | the loop enlists the arrivals, in order, in the slots after the active bots |
| GameWindow.SpawnedSlots | Game/GameWindow.c:609-615 | only the new slots change, and they hold new bots on entry points |
| GameWindow.SpawnedApart | Game/GameWindow.c:609-615 | no new bot lands on the tile of a bot in an earlier slot |
| GameWindow.EnlistPositions | Game/GameWindow.c:117-125 | the active bots' tiles become the old ones followed by the new |
| GameWindow.SpawnedCovers | Game/GameWindow.c:609-615 | with room for all three, every entry point has an active bot afterwards |
| GameWindow.Engine.constructor | Game/GameWindow.c:22-38 | the power-on state: no bots, an empty pool, the default 80 x 24 window |
| GameWindow.Engine.BotAtLocation | Game/GameWindow.c:130-141 | true exactly when an active bot stands on the point |
| GameWindow.Engine.NewBot | Game/GameWindow.c:117-125 | while there is room, the next slot gets the byte `LevelHead` reads as hit points, on the point, keeping its search count |
| GameWindow.Engine.MoveVerdict | Game/GameWindow.c:880-910 | the tests in the source's order give `MoveOutcome` with no towers |
| GameWindow.Engine.MoveBot | Game/GameWindow.c:880-910 | the bot ends as `MoveOutcome` with no towers says; no other slot changes |
| GameWindow.Engine.SimpleMove | Game/GameWindow.c:622-708 | the bot ends as `SimpleMoveOutcome` with no towers says; no other slot changes |
| GameWindow.Engine.VisitedPointsFull | Game/GameWindow.c:488-491 | true exactly when the pool holds 150 entries |
| GameWindow.Engine.VisitedPointStore | Game/GameWindow.c:496-506 | appends the entry exactly when the pool has room, and reports its index |
| GameWindow.Engine.VisitedPointsClear | Game/GameWindow.c:511-514 | empties the pool |
| GameWindow.Engine.VisitedPointByPoint | Game/GameWindow.c:519-530 | the first pool entry on the point, if any |
| GameWindow.Engine.ProbeAt | Game/GameWindow.c:535-576 | one probe is `Probe` on the filled part of the pool |
| GameWindow.Engine.VisitedPointByPointWeight | Game/GameWindow.c:535-576 | the result is `BacktrackStep` on the filled part of the pool, with the same negated East test |
| GameWindow.Engine.Candidate | Game/GameWindow.c:727-799 | the neighbour tests give `Admit` |
| GameWindow.Engine.ExpandNeighbor | Game/GameWindow.c:722-812 | one neighbour check does to the pool what `Expand` says |
| GameWindow.Engine.ExpandPair | Game/GameWindow.c:722-812 | two checks follow `Pass` |
| GameWindow.Engine.ExpandEntry | Game/GameWindow.c:722-812 | the flood from entry i either ends with the pass's outcome or continues from entry i + 1 |
| GameWindow.Engine.Spread | Game/GameWindow.c:722-812 | the flood loop reaches `Wave`'s result |
| GameWindow.Engine.Flood | Game/GameWindow.c:717-812 | the pool and the reported base are those of `Search` |
| GameWindow.Engine.Backtrack | Game/GameWindow.c:814-819 | the walk from the stored base ends where `Retrace` says |
| GameWindow.Engine.BacktrackFrom | Game/GameWindow.c:814-819 | one step keeps the walk's result and lowers the weight |
| GameWindow.Engine.Route | Game/GameWindow.c:717-819 | the pool is `Search`'s, linked from the bot's tile; the tile found is `Routed`'s, none included; it lies next to the bot and is a non-stone map tile |
| GameWindow.Engine.ComplexMove | Game/GameWindow.c:713-832 | the bot moves exactly when it has searches left and `Routed` finds a tile, and then onto that tile, even onto another bot; a failure leaves the bot |
| GameWindow.Engine.RandomizeBot | Game/GameWindow.c:839-878 | the bot moves to `Relocation`'s vacant tile and its search count restarts |
| GameWindow.Engine.DrawVacant | Game/GameWindow.c:841-872 | the draw loop yields `Relocation`'s tile |
| GameWindow.Engine.DrawStep | Game/GameWindow.c:841-872 | one round either ends the relocation or restarts it further on |
| GameWindow.Engine.DrawTile | Game/GameWindow.c:841-872 | one round draws an X, then a Y, and decides whether the tile is vacant |
| GameWindow.Engine.Advance | Game/GameWindow.c:583-604 | reports the greedy step's success as `SimpleMoveOutcome` says and the path search's exactly when it runs and `Routed` finds a tile; the bot ends as `StepMove` says and no other slot changes |
| GameWindow.Engine.Retry | Game/GameWindow.c:585-603 | the path search succeeds exactly when the bot has searches left and `Routed` finds a tile, and then restarts the search count; the bot ends as `SearchMove` says, otherwise counting the failure |
| GameWindow.Engine.CountFailure | Game/GameWindow.c:587-598 | the count rises by one modulo 256; from 5 on, a bot far from the base on its shortest axis is relocated with a fresh count; the bot ends as `AfterFailure` says |
| GameWindow.Engine.Step | Game/GameWindow.c:581-616 | the indexed slot, active or not, ends as `StepMove` says, and no other slot changes; the index advances as `NextBotStep` says; the table and count are then exactly what `Spawned` gives from that table, so the free entry points get new bots in order, each keeping its slot's flood count; none lands on an earlier bot's tile |
| GameWindow.Engine.Spawn | Game/GameWindow.c:609-615 | the table and bot count become those of `Spawned` |
| GameWindow.Engine.SpawnAt | Game/GameWindow.c:611-614 | one round carries `Spawned` on by one entry point |
| GameWindow.Engine.ParseByte | Game/GameWindow.c:346-483 | one byte moves the decoder as the grammar says, stores a digit in its slot, applies a completed size report, scrolls or steers |
| GameWindow.Engine.ParseInput | Game/GameWindow.c:346-483 | the decoder ends in `DecoderState`, the view stays in range, and without `s` the cursor stays on the map |
| GameWindow.Engine.Sequence | Game/GameWindow.c:356-481 | bytes that continue, complete or break a sequence act on the buffers and window size only |
| GameWindow.Engine.Move | Game/GameWindow.c:366-426 | arrows scroll as `Game.Scroll` says and w/s/a/d steer as `Steer` says |
| GameWindow.Engine.Proceed | Game/GameWindow.c:427-453 | a continuing byte moves the decoder and stores a digit in its slot |
| GameWindow.Engine.ApplySizeReport | Game/GameWindow.c:454-477 | the window size becomes the reported one, the view resets when it changed, and the buffers clear |

## Left out

- Rendering is not modelled: the map, bots, towers, borders, cursor, status line and colours (`Game/Game.c:58-93`, `262-537`, and their counterparts in `Game/GameWindow.c`). `Game.c`'s tile repaints are kept only as the ghost `redraws` log.
- `main.c`, the UART driver, the interrupt handlers and the random generator's internals are not part of this model. `RandGetByte` becomes a byte stream parameter `rand`, and `UartReceiveByte` becomes the input byte sequence.
- `PointsEqualP` and `PointFromP` (`Game/Point.c:20-24`, `62-66`) are program-memory variants of `PointsEqual` and of a copy; they are left out.
- `PointDistance`, `PointLongestAxis` and `PointShortestAxis` are not part of this model. The steps take them as function parameters.
- `sscanf` is not part of this model. The size report takes it as the parameter `scan`.
- Game.Engine.RandomizeBot: requires that the stream yields a vacant tile. The source's loop runs for as long as it takes, and never returns when no tile is vacant.
- GameWindow.Engine.RandomizeBot: the same requirement.
- Game.Engine.Step: on the first step of every game there is no bot yet. The source then moves the zeroed slot 0 and divides by zero in `i %= botCount` (see Findings). The model runs only the spawning loop in that state, and does not model the phantom move or the undefined index. Game.Engine.Turn, the step with a bot, requires at least one bot.
- GameWindow.Engine.Step: requires `botStep` below 32. The source can index `bots[32]` (see Findings), and what that reads is outside the model.
- GameWindow.Engine: the gold counter and the level index of `GameWindow.c` are never changed by that engine. The level stays 0, and gold is left out.
- Game.Engine.ParseInput: the status line's text is not modelled. Only the `Feedback` value is.
- GameWindow.Engine.ParseInput: states the decoder state and the view and cursor bounds for the whole run, not the per-byte effects, which `ParseByte` states.
- Game.Engine.BuildOutcome: `(gold - TOWER_BUILD_COST) < 0` is taken on the `int32_t` gold, which the model keeps unbounded. Gold never falls below 0 in the model, so no wrap-around can occur.
- MapTools.PackMap: file I/O, argument parsing and the console output's layout beyond the `0xHH,` lines are left out.

## Findings

| source | as written | input that shows it | evidently intended | confidence | as-written member | corrected member |
|---|---|---|---|---|---|---|
| Game/GameWindow.c:121 | the new bot's hit points are read from `levels[level]`, the first byte of the record, which is the low byte of the `LevelName` string's address | a level name stored at address 0x0100 gives every new bot 0 hit points | read `levels[level].HealthPoints`, as `Game/Game.c:221-222` does | high (not executed) | GameWindow.LevelHeadIsNotHealth | Game.Engine.NewBot |
| Game/GameWindow.c:606 | `botStep = botStep >= botCount ? 0 : botStep + 1` lets the index reach `botCount` | with 32 bots, index 31 becomes 32, and the next step uses `bots[32]`, past the table | wrap the index below `botCount`, as `Game/Game.c:834-835` does with `i %= botCount` | high (not executed) | GameWindow.BotStepPassesTable | Game.Engine.Step |
| Game/Game.c:754 | the East probe of `VisitedPointByPointWeight` runs only when the step fails (`!PointAddDirection`), so it tests the tile itself or nothing (the same at `Game/GameWindow.c:549`) | pool [(2, 0) weight 0, (1, 0) weight 1, (0, 0) weight 2]: the walk back from (0, 0) finds nothing, though its weight-1 neighbour (1, 0) lies East | probe East like the other three directions, so that the walk back from the base always reaches the bot's neighbour | high (not executed) | GameDefs.RetraceMissesEast | GameDefs.RetraceIntendedSucceeds |
| Game/Game.c:834-840 | the first `GameStep` of a game runs with `botCount` 0, since only its spawning loop adds bots: it moves the zeroed slot `bots[0]`, then takes `i %= botCount` | the power-on state: `botCount` 0, `i` 0 | skip the move and the modulo while there is no bot, and spawn | high (not executed) | Game.PowerOnStep | Game.Engine.Step |
| Game/GameWindow.c:750-790 | East and South neighbours are stored without the pool lookup that North and West get | on an open map, expanding (1, 1) East stores (2, 1) although the pool holds it already | look every neighbour up before storing it, as `Game/Game.c:950-1042` does | medium (not executed) | GameWindow.PoolRepeats | Game.SearchLayered |
