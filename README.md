# entanglement-2: a verified model of the tile-propagation engine

This project models the game engine of `entanglement-2/main.swift` in Dafny.
It is a hexagonal tile-laying game. Each piece has twelve pins, two per
edge, joined in six pairs. A chain of crossings starts at the centre of a
9x9 grid. Each placed piece extends the chain. The chain follows pin
connections from piece to piece until it reaches an open cell, or until it
reaches a Border or Zero piece, which ends the game. The score for a placed
piece is 1 + 2 + ... + L, where L is the number of crossings the placement
adds to the path (a walk may cross one piece twice, and both crossings score).

Modules, one per part of the program:

- `Tiles` (`tiles.dfy`) holds the pin arithmetic.
  - `Output` is `output(from:)`. `Input` is `input(to:)`, using Swift's
    truncating `%` (`SwiftRem`). `OutputFromNeighbourOutput` composes the two.
  - Rotation is `Rotated`, with the class `Tile` whose `Rotate` loop
    rebuilds `connections` in place.
  - The tile kinds are the closed datatype `Kind`. `NonEmpty` is true of
    Border and Zero pieces too, as the subclassing makes it in the source.
- `Paths` (`path.dfy`) holds `PathItem` as a value and `Path` as an
  append-only class.
- `Board` (`field.dfy`) holds the grid as a value and the class `Field`.
  - The constructor runs the nested loops of `Field.init`, one method per
    loop nest.
  - `NextPlace` is the direction table.
  - `FindFuturePath` is the dry run; `PlaceTile` is the commit.
  - Both walks are proved against one relational specification, `IsWalk`,
    and they terminate. The measure is the set of path items not yet on the
    path: the step map is one-to-one, so the path never repeats an item.
- `Session` (`game.dfy`) holds the class `Game` and the dealing of pieces,
  `Deal`. The random numbers of `arc4random_uniform` are passed in as a
  sequence of draws.

The board invariant is `Board.BoardOk`, kept by every state-changing
method. It requires four things:
- the grid keeps its layout, and every placed piece is complete;
- the path is a chain of distinct items from the centre's synthetic item;
- each item follows the one before it across the edge of its exit pin;
- the waiting cell lies across the last exit pin and is open, unless a
  Border or Zero piece has finished the path.

## Model

| member | source | states |
|---|---|---|
| Tiles.SwiftRem | entanglement-2/main.swift:41-44 | Swift's `%`: the remainder differs from the dividend by a multiple of n, and lies in 0..n-1 for a non-negative dividend and in -(n-1)..0 for a negative one |
| Tiles.Output | entanglement-2/main.swift:22-34 | the lookup succeeds exactly when the pin occurs in the connection list, and throws `InvalidTile` otherwise; the answer is the other pin of a connection that holds `pin` |
| Tiles.OutputFirstMatch | entanglement-2/main.swift:23-30 | the answer comes from the first connection that mentions the pin, testing its first pin before its second |
| Tiles.OutputInvolution | entanglement-2/main.swift:22-34 | when no pin is listed twice, looking up the answer of a lookup gives back the original pin |
| Tiles.OutputNotSelf | entanglement-2/main.swift:22-34 | when no pin is listed twice, a pin never leads to itself |
| Tiles.PartitionOutput | entanglement-2/main.swift:22-34 | on a complete piece, the lookup succeeds for every pin 0..11, leads to a different pin in 0..11, and leads back |
| Tiles.Input | entanglement-2/main.swift:40-46 | for a pin in 0..11 the facing pin is in 0..11 and has the opposite parity |
| Tiles.InputClosed | entanglement-2/main.swift:40-46 | written out, an even pin p faces p+7 mod 12 and an odd pin faces p+5 mod 12 |
| Tiles.InputInvolution | entanglement-2/main.swift:40-46 | the facing pin of the facing pin is the pin itself |
| Tiles.InputInjective | entanglement-2/main.swift:40-46 | two pins 0..11 with the same facing pin are equal |
| Tiles.OutputFromNeighbourOutput | entanglement-2/main.swift:36-38 | crossing from a neighbour's exit pin succeeds exactly when the facing pin is on this piece, and the answer is the other pin of a connection that holds the facing pin |
| Tiles.KindTests | entanglement-2/main.swift:78-114 | the class tests of the walks: a piece ends the game exactly when it is Border or Zero, which are `NonEmptyTile`s too; of the other pieces, exactly the plain `NonEmptyTile` is crossed, and Placeholder and Empty stop the walk |
| Tiles.Tile.Rotate | entanglement-2/main.swift:48-56 | the loop leaves `connections` equal to every pin of the old list moved by `direction` edges |
| Tiles.Tile.RotateRight | entanglement-2/main.swift:59-61 | one edge clockwise |
| Tiles.Tile.RotateLeft | entanglement-2/main.swift:64-66 | one edge counter-clockwise |
| Tiles.RotationKeepsRange | entanglement-2/main.swift:48-66 | rotating by one edge either way keeps every pin in 0..11 |
| Tiles.RotateLeftUndoesRight | entanglement-2/main.swift:48-66 | `rotateLeft` after `rotateRight` restores the connections exactly |
| Tiles.RotateRightUndoesLeft | entanglement-2/main.swift:48-66 | `rotateRight` after `rotateLeft` restores the connections exactly |
| Tiles.SixRightRotationsRestore | entanglement-2/main.swift:48-61 | six `rotateRight`s restore the connections exactly |
| Tiles.RotatedPins | entanglement-2/main.swift:48-56 | the pins of the rotated list are the old pins, each rotated, in the same order |
| Tiles.RotationKeepsPartition | entanglement-2/main.swift:48-66 | rotation by one edge turns a complete piece into a complete piece |
| Paths.Path.constructor | entanglement-2/main.swift:132-134 | a new path holds exactly the synthetic item `(u, v, 0, 0)` |
| Paths.Path.Expand | entanglement-2/main.swift:136-138 | appends one item and changes nothing else; afterwards `lastOutput` is the appended exit pin. `lastOutput` requires a non-empty path, as its force-unwrap does |
| Board.SetCell | entanglement-2/main.swift:274 | writing a piece changes that one cell and no other |
| Board.PlaceholderGrid | entanglement-2/main.swift:162-170 | the first loop nest builds a 9x9 grid of placeholders |
| Board.FillCorners | entanglement-2/main.swift:174-179 | the second loop nest puts `EmptyTile` on exactly the cells where \|u-v\| >= 5 |
| Board.FillRim | entanglement-2/main.swift:181-186 | the third loop puts `BorderTile` on rows 0 and 8 and columns 0 and 8 inside the hexagon |
| Board.FillSlantedRim | entanglement-2/main.swift:188-191 | the fourth loop puts `BorderTile` on the two slanted edges where \|u-v\| = 4 |
| Board.Field.constructor | entanglement-2/main.swift:155-192 | the grid is `LayoutKind` at every cell: Empty in the corners, Border on the 24 rim cells, Zero at (4,4), Placeholder elsewhere. The path is `[(4,4,0,0)]`, the waiting cell (5,5) is `findNextPlace` of that item and is open, and the path is not finished |
| Board.NextPlace | entanglement-2/main.swift:194-216 | the direction table moves by at most one in each coordinate, and keeps the place exactly for a pin outside 0..11, so the fallback branch is never taken for a real pin |
| Board.NextPlaceMoves | entanglement-2/main.swift:194-216 | a step changes the distance from the centre line by at most one |
| Board.InputFacesBack | entanglement-2/main.swift:194-216 | the facing pin's direction is the opposite of the exit pin's direction: it points back across the shared edge |
| Board.NextPlaceInjective | entanglement-2/main.swift:194-216 | two cells that lead to the same neighbour by the same pin are the same cell |
| Board.StepStaysInHex | entanglement-2/main.swift:194-216 | one step from a cell inside the rim stays in the hexagon |
| Board.WalkDeterministic | entanglement-2/main.swift:222-297 | the walk is a function of the grid, the start cell and the last exit pin, so the commit appends exactly what the dry run reports and stops at the same cell |
| Board.LinkedInjective | entanglement-2/main.swift:285-287 | a path item is reached from at most one predecessor |
| Board.Advance | entanglement-2/main.swift:285-287 | appending the successor keeps the path a chain of distinct items and visits one more possible item, the termination measure of both loops |
| Board.PlaceKeepsLayout | entanglement-2/main.swift:274 | placing a complete piece on an open cell keeps the layout and changes only that cell |
| Board.PlaceKeepsChain | entanglement-2/main.swift:274 | placing a piece on an open cell leaves the committed chain as it was |
| Board.BoardInside | entanglement-2/main.swift:274-278 | under the board invariant, every crossed cell and an open waiting cell lie inside the rim, so all grid indexing is in 0..8. A waiting cell that is not open holds the Border or Zero piece that stopped the chain |
| Board.Field.FindFuturePath | entanglement-2/main.swift:222-268 | throws `GameOver` exactly when the path is finished. Otherwise it returns the walk the candidate would start (at least one item, seed removed) and the cell where it stops. It changes no tile, no path item and not `nextPlace`, and sets `pathFinished` exactly when that cell holds a Border or Zero piece |
| Board.Field.PlaceTile | entanglement-2/main.swift:270-297 | the grid changes at the old waiting cell only. The old path is a prefix of the new one, the appended items are the walk from the old waiting cell, `nextPlace` is where it stops, `pathFinished` is set when that cell holds a Border or Zero piece, and the board invariant holds again |
| Session.Remove | entanglement-2/main.swift:361 | the pool loses exactly one entry |
| Session.RemoveCounts | entanglement-2/main.swift:359-364 | removing an index takes exactly one copy of that pin out of the pool |
| Session.Deal | entanglement-2/main.swift:353-370 | the connections dealt from the draws: one pair per two draws |
| Session.DealUsesPool | entanglement-2/main.swift:356-367 | dealing the whole pool uses every pin as often as the pool holds it |
| Session.DealIsPartition | entanglement-2/main.swift:353-370 | every dealt piece is complete: six pairs that use each pin 0..11 exactly once |
| Session.Game.GenerateTile | entanglement-2/main.swift:353-370 | the six rounds of the loop build exactly `Deal(Pool, draws)` in a fresh piece, and that piece is complete |
| Session.Game.constructor | entanglement-2/main.swift:310-323 | a fresh `Field` with the initial layout at every cell, the path `[(4,4,0,0)]`, the waiting cell (5,5) and the game not over; two dealt pieces (the one in hand first) that are distinct complete pieces; score 0 |
| Session.Game.IsGameOver | entanglement-2/main.swift:325-327 | the game is over exactly when the path is finished; while it is not, the chain waits at an open cell |
| Session.Game.UsePocket | entanglement-2/main.swift:329-331 | swaps the piece in hand with the pocket, so two calls restore both |
| Session.Game.RotateTileRight | entanglement-2/main.swift:333-335 | rotates the piece in hand one edge clockwise and leaves the pocket alone |
| Session.Game.RotateTileLeft | entanglement-2/main.swift:337-339 | rotates the piece in hand one edge counter-clockwise and leaves the pocket alone |
| Session.Game.PointsCouldBeGathered | entanglement-2/main.swift:372-382 | throws `GameOver` once the path is finished. Otherwise it returns `Triangle(L)`, for the length L >= 1 of the walk the piece in hand would start, so the closed range `0...L-1` is never empty |
| Session.Triangle | entanglement-2/main.swift:377-379 | the points 1 + 2 + ... + L for L crossings equal L(L+1)/2 |
| Session.TriangleGrows | entanglement-2/main.swift:377-379 | a longer walk earns strictly more points |
| Session.Game.PlaceTile | entanglement-2/main.swift:341-351 | once the game is over, throws `GameOver` and changes nothing: score, both pieces, tiles, path, waiting cell. Otherwise it commits the piece in hand, adds `Triangle(L)` for the L items the commit appends, and puts a freshly dealt piece in hand; the pocket is kept and the invariant holds |

## Left out

- `render()`, `toString()`, the `state` string, `main()` and the top-level driver are console I/O and formatting, and are not modelled.
- `arc4random_uniform` becomes a parameter `draws`: twelve numbers, the k-th below the pool size at that point (`DrawsFit`).
- Paths.Path.constructor: takes the centre coordinates explicitly; the Swift defaults `u = 4`, `v = 4` are what `Board.Field.constructor` passes.
- Session.Game.PlaceTile, Session.Game.constructor and Session.Game.GenerateTile: each takes the draws of the piece it deals as a parameter instead of drawing them.
- Placed pieces are stored in the grid as values (`Kind.Normal(connections)`). The Swift grid holds references, but no placed piece is ever changed afterwards, because the piece in hand is replaced after placement.
- Board.Field.FindFuturePath works on a local item sequence instead of a second `Path` object (`tmpPath`). Both walks update local copies and write the fields once at the end, which changes nothing observable because nothing else runs in between.
- Board.Field.PlaceTile requires the waiting cell to be open (`Open`). In a finished game the source would overwrite the Border or Zero piece there. `Game.placeTile` checks that the game is not over before its dry run, and the dry run leaves the waiting cell as it was, so the cell is still open at the commit even when the dry run has just set `pathFinished`.
- Board.Field.FindFuturePath and Board.Field.PlaceTile require the candidate to be a complete piece (`IsPartition`). Every dealt and rotated piece is one. Without this requirement the walk could throw `InvalidTile` or fail to terminate.
- The Zero piece's single connection `(0, 0)` is not stored: the walk stops on Zero before it would look at its connections.
- `Cell` reads outside the grid as Empty. Under the board invariant the walks never read there (`Board.BoardInside`).
- The dry run sets `pathFinished` when it stops at a Border or Zero piece, as the source does. So between `pointsCouldBeGathered` and the commit, the game reads as over while the waiting cell is still open. `BoardOk` allows this state.
- Session.Game.PointsCouldBeGathered: the walk it measures is returned in ghost out-parameters. The ghost parameters stand for `futurePath` and the stop cell, which the source discards.
- `Int` overflow of the score is not modelled; the score is an unbounded integer.
