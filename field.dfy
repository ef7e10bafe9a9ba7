/** The board: a hexagon of radius 4 laid out in a 9x9 grid, the committed
    path, the cell where the chain waits for the next piece, and the chain walk
    that follows exit pins through placed pieces (as a dry run and as a
    commit). */
module Board {
  import opened Tiles
  import opened Paths

  /** Grid coordinates `(u, v)`. */
  type Place = (int, int)

  /** `tiles`, indexed as `tiles[u][v]`. */
  type Grid = seq<seq<Kind>>

  const Center: Place := (4, 4)

  /** The synthetic first path item that stands for the centre piece. */
  const Seed := PathItem(4, 4, 0, 0)

  predicate IsGrid(g: Grid)
  {
    |g| == 9 && forall u :: 0 <= u < 9 ==> |g[u]| == 9
  }

  predicate InGrid(p: Place)
  {
    0 <= p.0 < 9 && 0 <= p.1 < 9
  }

  /** The piece at `p`; outside the grid (never addressed by the walk) it
      reads as `Empty`. */
  function Cell(g: Grid, p: Place): (r: Kind)
  {
    if 0 <= p.0 < |g| && 0 <= p.1 < |g[p.0]| then g[p.0][p.1] else Empty
  }

  function Dist(p: Place): (r: nat)
  {
    if p.0 >= p.1 then p.0 - p.1 else p.1 - p.0
  }

  /** The cells of the hexagon, rim included. */
  predicate InHex(p: Place)
  {
    InGrid(p) && Dist(p) <= 4
  }

  /** The 24 perimeter cells of the hexagon. */
  predicate OnRim(p: Place)
  {
    InHex(p) && (p.0 == 0 || p.1 == 0 || p.0 == 8 || p.1 == 8 || Dist(p) == 4)
  }

  /** The cells inside the rim: 1 <= u, v <= 7 and |u - v| <= 3. */
  predicate Inside(p: Place)
  {
    InHex(p) && !OnRim(p)
  }

  /** The piece `Field.init` puts at each cell: `EmptyTile` in the two corners
      where |u - v| >= 5, `BorderTile` on the rim, `ZeroTile` at the centre and
      `PlaceholderTile` on every other cell inside. */
  function LayoutKind(p: Place): (r: Kind)
  {
    if Dist(p) >= 5 then Empty
    else if OnRim(p) then Border
    else if p == Center then Zero
    else Placeholder
  }

  /** A cell holds its layout piece, except that an inside cell may carry a
      placed complete tile instead of its placeholder. */
  ghost predicate Fits(k: Kind, p: Place)
  {
    if LayoutKind(p) == Placeholder then k == Placeholder || (k.Normal? && IsPartition(k.connections))
    else k == LayoutKind(p)
  }

  /** The cell `(u, v)` of `g` fits the layout. */
  ghost predicate CellOk(g: Grid, u: int, v: int)
    requires IsGrid(g) && 0 <= u < 9 && 0 <= v < 9
  {
    Fits(g[u][v], (u, v))
  }

  ghost predicate LayoutOk(g: Grid)
  {
    IsGrid(g) && forall u, v :: 0 <= u < 9 && 0 <= v < 9 ==> CellOk(g, u, v)
  }

  /** `g` with the piece `k` at `p`, everything else as it was. */
  function SetCell(g: Grid, p: Place, k: Kind): (r: Grid)
    requires IsGrid(g) && InGrid(p)
    ensures IsGrid(r)
    ensures forall q :: Cell(r, q) == if q == p then k else Cell(g, q)
  {
    g[p.0 := g[p.0][p.1 := k]]
  }

  /** The grid as it is once the candidate `tile` sits at `p`. */
  function WithTile(g: Grid, p: Place, tile: seq<Connection>): (r: Grid)
  {
    if IsGrid(g) && InGrid(p) then SetCell(g, p, Normal(tile)) else g
  }

  /** `Field.findNextPlace`: the neighbour across the edge that holds the exit
      pin `output`; the source's fallback keeps the place for other pins. */
  function NextPlace(p: Place, output: int): (r: Place)
    ensures r == p <==> !(0 <= output < 12)
    ensures -1 <= r.0 - p.0 <= 1 && -1 <= r.1 - p.1 <= 1
  {
    if output == 0 || output == 1 then (p.0 + 1, p.1 + 1)
    else if output == 2 || output == 3 then (p.0 + 1, p.1)
    else if output == 4 || output == 5 then (p.0, p.1 - 1)
    else if output == 6 || output == 7 then (p.0 - 1, p.1 - 1)
    else if output == 8 || output == 9 then (p.0 - 1, p.1)
    else if output == 10 || output == 11 then (p.0, p.1 + 1)
    else p
  }

  function Low(p: Place): (r: int)
  {
    if p.0 <= p.1 then p.0 else p.1
  }

  /** The grid while `Field.init` fills the corners: the distances below `i`
      are done, and of distance `i` the cells whose smaller coordinate is below
      `s`. */
  function EmptyStage(p: Place, i: int, s: int): (r: Kind)
  {
    if (5 <= Dist(p) < i) || (Dist(p) == i && Low(p) < s) then Empty
    else if p == Center then Zero
    else Placeholder
  }

  /** The grid while the rows 0 and 8 and the columns 0 and 8 get their
      border pieces, `i` of each done. */
  function RimStage(p: Place, i: int): (r: Kind)
  {
    if (p.0 == 0 && 0 <= p.1 < i) || (p.1 == 0 && 0 <= p.0 < i) ||
       (p.0 == 8 && 4 <= p.1 < i + 4) || (p.1 == 8 && 4 <= p.0 < i + 4) then Border
    else EmptyStage(p, 9, 0)
  }

  /** The grid while the two slanted edges get their border pieces. */
  function DiagonalStage(p: Place, i: int): (r: Kind)
  {
    if (p.1 - p.0 == 4 && 1 <= p.0 < i) || (p.0 - p.1 == 4 && 1 <= p.1 < i) then Border
    else RimStage(p, 5)
  }

  // ---------------------------------------------------------------------------
  // The loops of `Field.init`, one method per loop nest

  /** A 9x9 grid of placeholders, built row by row. */
  method PlaceholderGrid() returns (t: Grid)
    ensures IsGrid(t)
    ensures forall a, b :: 0 <= a < 9 && 0 <= b < 9 ==> t[a][b] == Placeholder
  {
    t := [];
    for i := 0 to 9
      invariant |t| == i
      invariant forall a :: 0 <= a < i ==> t[a] == seq(9, _ => Placeholder)
    {
      var row: seq<Kind> := [];
      for j := 0 to 9
        invariant row == seq(j, _ => Placeholder)
      {
        row := row + [Placeholder];
      }
      t := t + [row];
    }
  }

  /** `EmptyTile` on the cells `(s, i + s)` and `(i + s, s)` for i in 5..8. */
  method FillCorners(t0: Grid) returns (t: Grid)
    requires IsGrid(t0)
    requires forall a, b :: 0 <= a < 9 && 0 <= b < 9 ==> t0[a][b] == EmptyStage((a, b), 5, 0)
    ensures IsGrid(t)
    ensures forall a, b :: 0 <= a < 9 && 0 <= b < 9 ==> t[a][b] == EmptyStage((a, b), 9, 0)
  {
    t := t0;
    for i := 5 to 9
      invariant IsGrid(t)
      invariant forall a, b :: 0 <= a < 9 && 0 <= b < 9 ==> t[a][b] == EmptyStage((a, b), i, 0)
    {
      for s := 0 to 9 - i
        invariant IsGrid(t)
        invariant forall a, b :: 0 <= a < 9 && 0 <= b < 9 ==> t[a][b] == EmptyStage((a, b), i, s)
      {
        t := t[s := t[s][i + s := Empty]];
        t := t[i + s := t[i + s][s := Empty]];
      }
    }
  }

  /** `BorderTile` along rows 0 and 8 and columns 0 and 8. */
  method FillRim(t0: Grid) returns (t: Grid)
    requires IsGrid(t0)
    requires forall a, b :: 0 <= a < 9 && 0 <= b < 9 ==> t0[a][b] == EmptyStage((a, b), 9, 0)
    ensures IsGrid(t)
    ensures forall a, b :: 0 <= a < 9 && 0 <= b < 9 ==> t[a][b] == RimStage((a, b), 5)
  {
    t := t0;
    for i := 0 to 5
      invariant IsGrid(t)
      invariant forall a, b :: 0 <= a < 9 && 0 <= b < 9 ==> t[a][b] == RimStage((a, b), i)
    {
      t := t[0 := t[0][i := Border]];
      t := t[i := t[i][0 := Border]];
      t := t[8 := t[8][i + 4 := Border]];
      t := t[i + 4 := t[i + 4][8 := Border]];
    }
  }

  /** `BorderTile` along the two slanted edges where |u - v| = 4. */
  method FillSlantedRim(t0: Grid) returns (t: Grid)
    requires IsGrid(t0)
    requires forall a, b :: 0 <= a < 9 && 0 <= b < 9 ==> t0[a][b] == RimStage((a, b), 5)
    ensures IsGrid(t)
    ensures forall a, b :: 0 <= a < 9 && 0 <= b < 9 ==> t[a][b] == DiagonalStage((a, b), 5)
  {
    t := t0;
    for i := 1 to 5
      invariant IsGrid(t)
      invariant forall a, b :: 0 <= a < 9 && 0 <= b < 9 ==> t[a][b] == DiagonalStage((a, b), i)
    {
      t := t[i := t[i][i + 4 := Border]];
      t := t[i + 4 := t[i + 4][i := Border]];
    }
  }

  // ---------------------------------------------------------------------------
  // The chain walk as a relation

  /** The walk that starts at `cur`, entered from a neighbour whose exit pin was
      `last`, appends exactly `items` and stops at `stop`. A Border or Zero piece
      stops the walk (and ends the game); so does a piece that is not a
      `NonEmptyTile` (Placeholder, Empty); a Normal piece is crossed and the walk
      moves on, unless the exit pin leaves the place unchanged. */
  ghost predicate IsWalk(g: Grid, cur: Place, last: int, items: seq<PathItem>, stop: Place)
    decreases |items|
  {
    var k := Cell(g, cur);
    if k.Terminal() then items == [] && stop == cur
    else if !k.NonEmpty() then items == [] && stop == cur
    else
      var input := Input(last);
      var out := Output(k.connections, input);
      out.Ok? && items != [] && items[0] == PathItem(cur.0, cur.1, input, out.value) &&
      var next := NextPlace(cur, out.value);
      if next == cur then items == [items[0]] && stop == cur
      else IsWalk(g, next, out.value, items[1..], stop)
  }

  /** The walk is a function of the grid and its start: two runs from the same
      place and pin append the same items and stop at the same place. */
  lemma {:induction false} WalkDeterministic(g: Grid, cur: Place, last: int,
                                             items1: seq<PathItem>, stop1: Place,
                                             items2: seq<PathItem>, stop2: Place)
    requires IsWalk(g, cur, last, items1, stop1)
    requires IsWalk(g, cur, last, items2, stop2)
    ensures items1 == items2 && stop1 == stop2
    decreases |items1|
  {
    var k := Cell(g, cur);
    if k.NonEmpty() && !k.Terminal() {
      var out := Output(k.connections, Input(last)).value;
      var next := NextPlace(cur, out);
      if next != cur {
        WalkDeterministic(g, next, out, items1[1..], stop1, items2[1..], stop2);
        assert items1 == [items1[0]] + items1[1..];
        assert items2 == [items2[0]] + items2[1..];
      }
    }
  }

  /** Finishing the walk from `cur` with `r`, stopping at `s`, finishes the
      walk from `start` with `done + r`. */
  ghost predicate Resumes(g: Grid, cur: Place, last: int, start: Place, last0: int,
                          done: seq<PathItem>, r: seq<PathItem>, s: Place)
  {
    IsWalk(g, cur, last, r, s) ==> IsWalk(g, start, last0, done + r, s)
  }

  /** Every way of finishing the walk from `cur` finishes the walk from
      `start`, after the items `done`. */
  ghost predicate Reduces(g: Grid, cur: Place, last: int, start: Place, last0: int,
                          done: seq<PathItem>)
  {
    forall r, s :: Resumes(g, cur, last, start, last0, done, r, s)
  }

  /** A walk that stops where it is. */
  lemma WalkStops(g: Grid, cur: Place, last: int, start: Place, last0: int, done: seq<PathItem>)
    requires Cell(g, cur).Terminal() || !Cell(g, cur).NonEmpty()
    requires Reduces(g, cur, last, start, last0, done)
    ensures IsWalk(g, start, last0, done, cur)
  {
    assert IsWalk(g, cur, last, [], cur);
    assert Resumes(g, cur, last, start, last0, done, [], cur);
    assert done + [] == done;
  }

  /** Crossing the Normal piece at `cur` appends `y` and moves on to `next`. */
  lemma WalkSteps(g: Grid, cur: Place, last: int, y: PathItem, next: Place,
                  start: Place, last0: int, done: seq<PathItem>)
    requires Cell(g, cur).Normal?
    requires Output(Cell(g, cur).connections, Input(last)).Ok?
    requires y == PathItem(cur.0, cur.1, Input(last), Output(Cell(g, cur).connections, Input(last)).value)
    requires next == NextPlace(cur, y.output)
    requires Reduces(g, cur, last, start, last0, done)
    ensures next == cur ==> IsWalk(g, start, last0, done + [y], cur)
    ensures next != cur ==> Reduces(g, next, y.output, start, last0, done + [y])
  {
    if next == cur {
      assert IsWalk(g, cur, last, [y], cur);
      assert Resumes(g, cur, last, start, last0, done, [y], cur);
    } else {
      forall r, s ensures Resumes(g, next, y.output, start, last0, done + [y], r, s) {
        if IsWalk(g, next, y.output, r, s) {
          assert ([y] + r)[1..] == r;
          assert IsWalk(g, cur, last, [y] + r, s);
          assert Resumes(g, cur, last, start, last0, done, [y] + r, s);
          assert (done + [y]) + r == done + ([y] + r);
        }
      }
    }
  }

  // ---------------------------------------------------------------------------
  // Geometry

  /** A step changes the distance from the centre line by at most one. */
  lemma NextPlaceMoves(p: Place, output: int)
    requires 0 <= output < 12
    ensures Dist(NextPlace(p, output)) <= Dist(p) + 1 && Dist(p) <= Dist(NextPlace(p, output)) + 1
  {
  }

  /** The pin that `input(to:)` returns points back across the shared edge: its
      direction is the opposite of the direction of `output`. */
  lemma InputFacesBack(p: Place, output: int)
    requires 0 <= output < 12
    ensures NextPlace(NextPlace(p, output), Input(output)) == p
  {
  }

  /** From a cell inside the rim, one step stays in the hexagon. */
  lemma StepStaysInHex(p: Place, output: int)
    requires Inside(p)
    ensures InHex(NextPlace(p, output))
  {
  }

  /** Only inside cells can hold a Normal or Placeholder piece. */
  lemma FitsInside(g: Grid, p: Place)
    requires LayoutOk(g)
    requires Cell(g, p).Normal? || Cell(g, p).Placeholder?
    ensures Inside(p) && p != Center
    ensures Cell(g, p).Normal? ==> IsPartition(Cell(g, p).connections)
  {
    assert InGrid(p);
    assert CellOk(g, p.0, p.1);
  }

  lemma LayoutCenter(g: Grid)
    requires LayoutOk(g)
    ensures Cell(g, Center) == Zero
  {
    assert CellOk(g, 4, 4);
  }

  lemma PlaceKeepsLayout(g: Grid, p: Place, tile: seq<Connection>)
    requires LayoutOk(g) && Cell(g, p).Placeholder? && IsPartition(tile)
    ensures LayoutOk(WithTile(g, p, tile))
    ensures forall q :: Cell(WithTile(g, p, tile), q) == if q == p then Normal(tile) else Cell(g, q)
  {
    FitsInside(g, p);
    var h := WithTile(g, p, tile);
    forall u, v | 0 <= u < 9 && 0 <= v < 9 ensures CellOk(h, u, v) {
      assert Cell(h, (u, v)) == h[u][v];
      assert Cell(g, (u, v)) == g[u][v];
      assert CellOk(g, u, v);
    }
  }

  // ---------------------------------------------------------------------------
  // The committed path as a chain through the grid

  /** `x` is crossed at a Normal piece, from entry pin to exit pin. */
  ghost predicate Crossed(g: Grid, x: PathItem)
  {
    var k := Cell(g, (x.u, x.v));
    k.Normal? && Output(k.connections, x.input) == Ok(x.output)
  }

  /** `x` follows `prev`: it lies across the edge of `prev`'s exit pin, is
      entered at the facing pin and is crossed. */
  ghost predicate Linked(g: Grid, prev: PathItem, x: PathItem)
  {
    (x.u, x.v) == NextPlace((prev.u, prev.v), prev.output) &&
    x.input == Input(prev.output) &&
    Crossed(g, x)
  }

  /** Item `i` of `p` follows item `i - 1`. */
  ghost predicate Step(g: Grid, p: seq<PathItem>, i: int)
    requires 0 < i < |p|
  {
    Linked(g, p[i - 1], p[i])
  }

  /** The path starts at the centre's synthetic item and each item follows
      the one before it. */
  ghost predicate Chain(g: Grid, p: seq<PathItem>)
  {
    p != [] && p[0] == Seed && forall i :: 0 < i < |p| ==> Step(g, p, i)
  }

  /** Items `i` and `j` of `p` differ. */
  ghost predicate Apart(p: seq<PathItem>, i: int, j: int)
    requires 0 <= i < |p| && 0 <= j < |p|
  {
    p[i] != p[j]
  }

  ghost predicate Distinct(p: seq<PathItem>)
  {
    forall i, j :: 0 <= i < j < |p| ==> Apart(p, i, j)
  }

  /** Every path item the board can hold. */
  ghost const Universe: set<PathItem> :=
    set u: int, v: int, i: int, o: int | 0 <= u < 9 && 0 <= v < 9 && 0 <= i < 12 && 0 <= o < 12 :: PathItem(u, v, i, o)

  ghost function Visited(p: seq<PathItem>): (r: set<PathItem>)
  {
    set x | x in p
  }

  lemma CrossedPins(g: Grid, x: PathItem)
    requires LayoutOk(g) && Crossed(g, x)
    ensures 0 <= x.input < 12 && 0 <= x.output < 12
    ensures Inside((x.u, x.v)) && (x.u, x.v) != Center
    ensures x in Universe
  {
    FitsInside(g, (x.u, x.v));
    var c := Cell(g, (x.u, x.v)).connections;
    assert x == PathItem(x.u, x.v, x.input, x.output);
  }

  /** The step map of the walk is one-to-one: an item is reached from at most
      one predecessor, since `input(to:)` and the connections of a complete
      tile are involutions and the centre is not crossable. */
  lemma LinkedInjective(g: Grid, a: PathItem, b: PathItem, x: PathItem)
    requires LayoutOk(g)
    requires a == Seed || Crossed(g, a)
    requires b == Seed || Crossed(g, b)
    requires Linked(g, a, x) && Linked(g, b, x)
    ensures a == b
  {
    LayoutCenter(g);
    assert 0 <= a.output < 12 && (a != Seed ==> (a.u, a.v) != Center) by {
      if a != Seed { CrossedPins(g, a); }
    }
    assert 0 <= b.output < 12 && (b != Seed ==> (b.u, b.v) != Center) by {
      if b != Seed { CrossedPins(g, b); }
    }
    InputInjective(a.output, b.output);
    NextPlaceInjective((a.u, a.v), (b.u, b.v), a.output);
    if a != Seed && b != Seed {
      SameCellSameEntry(g, a, b);
    }
  }

  lemma NextPlaceInjective(p: Place, q: Place, output: int)
    requires NextPlace(p, output) == NextPlace(q, output)
    ensures p == q
  {
  }

  /** Two crossings of one complete tile that leave by the same pin entered
      by the same pin. */
  lemma SameCellSameEntry(g: Grid, a: PathItem, b: PathItem)
    requires LayoutOk(g) && Crossed(g, a) && Crossed(g, b)
    requires (a.u, a.v) == (b.u, b.v) && a.output == b.output
    ensures a == b
  {
    var c := Cell(g, (a.u, a.v)).connections;
    FitsInside(g, (a.u, a.v));
    OutputInvolution(c, a.input);
    OutputInvolution(c, b.input);
  }

  /** Every item of a chain is the seed or a crossing. */
  lemma ChainItem(g: Grid, p: seq<PathItem>, i: int)
    requires Chain(g, p) && 0 <= i < |p|
    ensures p[i] == Seed || Crossed(g, p[i])
  {
    if i > 0 {
      assert Step(g, p, i);
    }
  }

  /** Extending a chain by its successor keeps it a chain of distinct items
      and takes one more item out of the unvisited part of `Universe`. */
  lemma Advance(g: Grid, p: seq<PathItem>, y: PathItem)
    requires LayoutOk(g) && Chain(g, p) && Distinct(p)
    requires Linked(g, p[|p| - 1], y)
    ensures Chain(g, p + [y]) && Distinct(p + [y])
    ensures Universe - Visited(p + [y]) < Universe - Visited(p)
  {
    var q := p + [y];
    CrossedPins(g, y);
    LayoutCenter(g);
    forall j | 0 <= j < |p| ensures p[j] != y {
      if j > 0 {
        assert Step(g, p, j);
        ChainItem(g, p, j - 1);
        ChainItem(g, p, |p| - 1);
        assert Apart(p, j - 1, |p| - 1);
        if p[j] == y {
          LinkedInjective(g, p[j - 1], p[|p| - 1], y);
        }
      }
    }
    forall i | 0 < i < |q| ensures Step(g, q, i) {
      if i < |p| {
        assert Step(g, p, i);
      }
    }
    forall i, j | 0 <= i < j < |q| ensures Apart(q, i, j) {
      if j < |p| {
        assert Apart(p, i, j);
      }
    }
    assert Visited(q) == Visited(p) + {y};
  }

  /** Placing a piece on an open cell leaves the chain intact: no path item
      lies on an open cell. */
  lemma PlaceKeepsChain(g: Grid, q: Place, tile: seq<Connection>, p: seq<PathItem>)
    requires LayoutOk(g) && Cell(g, q).Placeholder? && IsPartition(tile)
    requires Chain(g, p)
    ensures Chain(WithTile(g, q, tile), p)
  {
    PlaceKeepsLayout(g, q, tile);
    var h := WithTile(g, q, tile);
    forall i | 0 < i < |p| ensures Step(h, p, i) {
      assert Step(g, p, i);
      assert (p[i].u, p[i].v) != q;
    }
  }

  ghost function LastPlace(p: seq<PathItem>): (r: Place)
    requires p != []
  {
    (p[|p| - 1].u, p[|p| - 1].v)
  }

  /** The board invariant on values: the layout holds, the path is a chain of
      distinct items from the centre through placed pieces, `next` is the cell
      across the last exit pin, and that cell is still open unless the path is
      finished at a Border or Zero piece. */
  ghost predicate BoardOk(g: Grid, items: seq<PathItem>, next: Place, finished: bool)
  {
    LayoutOk(g) && Chain(g, items) && Distinct(items) &&
    next == NextPlace(LastPlace(items), items[|items| - 1].output) && InHex(next) &&
    (Cell(g, next).Placeholder? || (finished && Cell(g, next).Terminal()))
  }

  /** Under the board invariant every grid index the walks use is in range:
      the waiting cell and every crossed cell lie inside the rim, off the
      centre; a waiting cell that is not open holds the Border or Zero piece
      that stopped the chain. */
  lemma BoardInside(g: Grid, items: seq<PathItem>, next: Place, finished: bool)
    requires BoardOk(g, items, next, finished)
    ensures Cell(g, next).Placeholder? ==> Inside(next) && next != Center
    ensures !Cell(g, next).Placeholder? ==> finished && Cell(g, next).Terminal()
    ensures forall i :: 0 < i < |items| ==> Inside((items[i].u, items[i].v)) && (items[i].u, items[i].v) != Center
  {
    if Cell(g, next).Placeholder? {
      FitsInside(g, next);
    }
    forall i | 0 < i < |items| ensures Inside((items[i].u, items[i].v)) && (items[i].u, items[i].v) != Center {
      assert Step(g, items, i);
      CrossedPins(g, items[i]);
    }
  }

  /** What `findFuturePath` returns: the new items and where the chain stops. */
  datatype Future = Future(items: seq<PathItem>, place: Place)

  class Field {
    var tiles: Grid
    const path: Path
    var nextPlace: Place
    var pathFinished: bool

    /** The board invariant, `BoardOk`, on the field's state. */
    ghost predicate Valid()
      reads this, path
    {
      BoardOk(tiles, path.items, nextPlace, pathFinished)
    }

    /** `Field()`: the layout built by nested loops, the path holding the
        centre's synthetic item, and the chain waiting at (5, 5). */
    constructor ()
      ensures Valid() && Open() && !pathFinished && fresh(path)
      ensures IsGrid(tiles) && forall p :: InGrid(p) ==> Cell(tiles, p) == LayoutKind(p)
      ensures path.items == [Seed]
      ensures nextPlace == (5, 5) && nextPlace == NextPlace((Seed.u, Seed.v), Seed.output)
    {
      var t := PlaceholderGrid();
      t := t[4 := t[4][4 := Zero]];
      t := FillCorners(t);
      t := FillRim(t);
      t := FillSlantedRim(t);
      forall p | InGrid(p) ensures Cell(t, p) == LayoutKind(p) {
        assert t[p.0][p.1] == DiagonalStage(p, 5);
      }
      tiles := t;
      path := new Path(4, 4);
      nextPlace := (5, 5);
      pathFinished := false;
      new;
      forall u, v | 0 <= u < 9 && 0 <= v < 9 ensures CellOk(tiles, u, v) {
        assert Cell(tiles, (u, v)) == tiles[u][v];
      }
    }

    /** The chain waits at an open cell for the next piece. */
    ghost predicate Open()
      reads this
    {
      Cell(tiles, nextPlace).Placeholder?
    }

    /** `findFuturePath(tile:)`: the walk the candidate would start, with the
        grid, the path and `nextPlace` left as they are. The source still sets
        `pathFinished` when the trace reaches a Border or Zero piece. */
    method FindFuturePath(tile: seq<Connection>) returns (r: Result<Future>)
      requires Valid() && IsPartition(tile)
      modifies this`pathFinished
      ensures Valid()
      ensures tiles == old(tiles) && nextPlace == old(nextPlace) && path.items == old(path.items)
      ensures old(pathFinished) ==> r == Err(GameOver) && pathFinished
      ensures !old(pathFinished) ==>
        r.Ok? && |r.value.items| >= 1 &&
        IsWalk(WithTile(tiles, nextPlace, tile), nextPlace, path.LastOutput(), r.value.items, r.value.place) &&
        pathFinished == Cell(WithTile(tiles, nextPlace, tile), r.value.place).Terminal()
    {
      if pathFinished {
        return Err(GameOver);
      }
      var tmpItems := [path.items[|path.items| - 1]];
      var tmpNextPlace := nextPlace;
      var finished := false;
      var u, v := tmpNextPlace.0, tmpNextPlace.1;

      ghost var g := WithTile(tiles, nextPlace, tile);
      ghost var start, last0 := nextPlace, path.LastOutput();
      ghost var first := tmpItems[0];
      ghost var done: seq<PathItem> := [];
      ghost var all := path.items;
      ghost var left := Universe - Visited(all);
      PlaceKeepsLayout(tiles, nextPlace, tile);
      PlaceKeepsChain(tiles, nextPlace, tile, path.items);
      TraceStarts(g, all, start);

      while true
        invariant tmpItems == [first] + done
        invariant (u, v) == tmpNextPlace && Tracing(g, all, done, (u, v), start, last0)
        invariant tmpItems[|tmpItems| - 1].output == all[|all| - 1].output
        invariant left == Universe - Visited(all)
        invariant !finished
        decreases left
      {
        var lastOutput := tmpItems[|tmpItems| - 1].output;
        var nextTile: Kind;
        if u == nextPlace.0 && v == nextPlace.1 {
          nextTile := Normal(tile);
        } else {
          nextTile := tiles[u][v];
        }
        assert nextTile == Cell(g, (u, v));

        if nextTile.Terminal() {
          finished := true;
          break;
        }
        if !nextTile.NonEmpty() {
          break;
        }

        CrossStep(g, all, done, (u, v), start, last0);
        var output := OutputFromNeighbourOutput(nextTile.connections, lastOutput);
        var y := PathItem(u, v, Input(lastOutput), output.value);
        tmpItems := tmpItems + [y];
        all, done := all + [y], done + [y];
        left := Universe - Visited(all);

        tmpNextPlace := NextPlace(tmpNextPlace, tmpItems[|tmpItems| - 1].output);
        if u == tmpNextPlace.0 && v == tmpNextPlace.1 {
          break;
        }
        u, v := tmpNextPlace.0, tmpNextPlace.1;
      }
      TraceEnds(g, all, done, tmpNextPlace, start, last0, finished);

      tmpItems := tmpItems[1..];
      assert tmpItems == done;
      pathFinished := finished;
      return Ok(Future(tmpItems, tmpNextPlace));
    }

    /** `placeTile(tile:)`: put the candidate at `nextPlace` and walk the chain
        on the real grid and path. */
    method PlaceTile(tile: seq<Connection>)
      requires Valid() && Open() && IsPartition(tile)
      modifies this, path
      ensures Valid()
      ensures tiles == WithTile(old(tiles), old(nextPlace), tile)
      ensures |old(path.items)| < |path.items| && path.items[..|old(path.items)|] == old(path.items)
      ensures IsWalk(tiles, old(nextPlace), old(path.LastOutput()), path.items[|old(path.items)|..], nextPlace)
      ensures pathFinished == (old(pathFinished) || Cell(tiles, nextPlace).Terminal())
    {
      var u, v := nextPlace.0, nextPlace.1;
      PlaceKeepsLayout(tiles, nextPlace, tile);
      PlaceKeepsChain(tiles, nextPlace, tile, path.items);
      var g := tiles[u := tiles[u][v := Normal(tile)]];
      var items := path.items;
      var next := nextPlace;
      var finished := pathFinished;

      ghost var start, last0 := next, items[|items| - 1].output;
      ghost var committed := items;
      ghost var done: seq<PathItem> := [];
      ghost var left := Universe - Visited(committed);
      TraceStarts(g, committed, start);

      while g[u][v].NonEmpty()
        invariant (u, v) == next && items == committed + done
        invariant Tracing(g, items, done, next, start, last0)
        invariant left == Universe - Visited(items)
        invariant finished == old(pathFinished)
        decreases left
      {
        var lastOutput := items[|items| - 1].output;
        var nextTile := g[u][v];
        assert nextTile == Cell(g, (u, v));

        if nextTile.Terminal() {
          finished := true;
          break;
        }

        CrossStep(g, items, done, (u, v), start, last0);
        var output := OutputFromNeighbourOutput(nextTile.connections, lastOutput);
        var y := PathItem(u, v, Input(lastOutput), output.value);
        items := items + [y];
        done := done + [y];
        left := Universe - Visited(items);

        next := NextPlace(next, items[|items| - 1].output);
        if u == next.0 && v == next.1 {
          break;
        }
        u, v := next.0, next.1;
      }
      TraceEnds(g, items, done, next, start, last0, finished);
      assert items[..|committed|] == committed && items[|committed|..] == done;
      tiles, nextPlace, pathFinished := g, next, finished;
      path.items := items;
    }
  }

  /** What both copies of the chain walk keep at the head of their loop: the
      items so far (`all`, of which `done` are the new ones) form a chain of
      distinct items, the walk stands at the cell across the last exit pin,
      inside the hexagon, and finishing the walk from here finishes the walk
      from `start`. */
  ghost predicate Tracing(g: Grid, all: seq<PathItem>, done: seq<PathItem>, cur: Place,
                          start: Place, last0: int)
  {
    LayoutOk(g) && Chain(g, all) && Distinct(all) &&
    cur == NextPlace(LastPlace(all), all[|all| - 1].output) && InHex(cur) &&
    (done == [] ==> cur == start) &&
    Reduces(g, cur, all[|all| - 1].output, start, last0, done)
  }

  /** One crossing of the Normal piece at `cur`: the exit pin exists, the next
      place is a different cell, the invariant carries over, and one more item
      of `Universe` is visited. */
  lemma CrossStep(g: Grid, all: seq<PathItem>, done: seq<PathItem>, cur: Place,
                  start: Place, last0: int)
    requires Tracing(g, all, done, cur, start, last0)
    requires Cell(g, cur).Normal?
    ensures var c, lo := Cell(g, cur).connections, all[|all| - 1].output;
      Output(c, Input(lo)).Ok? &&
      var y := PathItem(cur.0, cur.1, Input(lo), Output(c, Input(lo)).value);
      var next := NextPlace(cur, y.output);
      next != cur &&
      Tracing(g, all + [y], done + [y], next, start, last0) &&
      Universe - Visited(all + [y]) < Universe - Visited(all)
  {
    var c, lo := Cell(g, cur).connections, all[|all| - 1].output;
    FitsInside(g, cur);
    LastOutputInRange(g, all);
    PartitionOutput(c, Input(lo));
    var y := PathItem(cur.0, cur.1, Input(lo), Output(c, Input(lo)).value);
    Advance(g, all, y);
    NextPlaceMoves(cur, y.output);
    StepStaysInHex(cur, y.output);
    WalkSteps(g, cur, lo, y, NextPlace(cur, y.output), start, last0, done);
  }

  /** The walk ends at `cur` when the piece there is Border, Zero, Placeholder
      or Empty; there the board invariant holds with the chain so far, provided
      a Border or Zero piece has marked the path finished. */
  lemma TraceEnds(g: Grid, all: seq<PathItem>, done: seq<PathItem>, cur: Place,
                  start: Place, last0: int, finished: bool)
    requires Tracing(g, all, done, cur, start, last0)
    requires !Cell(g, cur).Normal? && (Cell(g, cur).Terminal() ==> finished)
    ensures IsWalk(g, start, last0, done, cur)
    ensures BoardOk(g, all, cur, finished)
  {
    WalkStops(g, cur, all[|all| - 1].output, start, last0, done);
    assert CellOk(g, cur.0, cur.1);
  }

  /** At the start of either walk the invariant holds with nothing done. */
  lemma TraceStarts(g: Grid, all: seq<PathItem>, start: Place)
    requires LayoutOk(g) && Chain(g, all) && Distinct(all)
    requires start == NextPlace(LastPlace(all), all[|all| - 1].output) && InHex(start)
    ensures Tracing(g, all, [], start, start, all[|all| - 1].output)
  {
    var last0 := all[|all| - 1].output;
    forall r, s ensures Resumes(g, start, last0, start, last0, [], r, s) {
      assert [] + r == r;
    }
  }

  /** The exit pin of a chain's last item is a real pin. */
  lemma LastOutputInRange(g: Grid, p: seq<PathItem>)
    requires LayoutOk(g) && Chain(g, p)
    ensures 0 <= p[|p| - 1].output < 12
  {
    ChainItem(g, p, |p| - 1);
    if p[|p| - 1] != Seed {
      CrossedPins(g, p[|p| - 1]);
    }
  }
}
