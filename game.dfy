/** The game: the board, the piece in hand (`nextTile`), the piece kept aside
    (`pocket`), the score, and the dealing of fresh pieces from the twelve
    pins. */
module Session {
  import opened Tiles
  import opened Paths
  import opened Board

  // ---------------------------------------------------------------------------
  // Dealing a piece

  /** `[Int](0...11)`: the pool every new piece is dealt from. */
  const Pool: seq<int> := [0, 1, 2, 3, 4, 5, 6, 7, 8, 9, 10, 11]

  /** `pool.remove(at: i)`: the pool without its `i`-th pin. */
  function Remove(s: seq<int>, i: int): (r: seq<int>)
    requires 0 <= i < |s|
    ensures |r| == |s| - 1
  {
    s[..i] + s[i + 1..]
  }

  /** Removing a pin takes exactly one copy of it out of the pool. */
  lemma RemoveCounts(s: seq<int>, i: int)
    requires 0 <= i < |s|
    ensures multiset(Remove(s, i)) + multiset{s[i]} == multiset(s)
  {
    assert s == s[..i] + [s[i]] + s[i + 1..];
  }

  /** The draws of `arc4random_uniform(pool.count)`: the `k`-th draw is taken
      when `n - k` pins are left, and is below that count. */
  predicate DrawsFit(draws: seq<int>, n: int)
  {
    forall k :: 0 <= k < |draws| ==> 0 <= draws[k] < n - k
  }

  /** The connections `generateTile` builds from `pool` and the draws: each
      round takes the pin at the first draw out of the pool, then the pin at
      the second draw out of what is left, and pairs them. */
  function Deal(pool: seq<int>, draws: seq<int>): (r: seq<Connection>)
    requires |draws| % 2 == 0 && |draws| <= |pool| && DrawsFit(draws, |pool|)
    ensures |r| == |draws| / 2
    decreases |draws|
  {
    if draws == [] then []
    else
      var a := pool[draws[0]];
      var rest := Remove(pool, draws[0]);
      var b := rest[draws[1]];
      assert DrawsFit(draws[2..], |rest| - 1) by {
        forall k | 0 <= k < |draws| - 2 ensures 0 <= draws[2..][k] < |rest| - 1 - k {
          assert draws[2..][k] == draws[k + 2];
        }
      }
      [(a, b)] + Deal(Remove(rest, draws[1]), draws[2..])
  }

  /** One round of dealing, unfolded. */
  lemma DealStep(pool: seq<int>, draws: seq<int>)
    requires |draws| % 2 == 0 && 2 <= |draws| <= |pool| && DrawsFit(draws, |pool|)
    ensures DrawsFit(draws[2..], |pool| - 2)
    ensures var rest := Remove(pool, draws[0]);
      Deal(pool, draws) == [(pool[draws[0]], rest[draws[1]])] + Deal(Remove(rest, draws[1]), draws[2..])
  {
    forall k | 0 <= k < |draws| - 2 ensures 0 <= draws[2..][k] < |pool| - 2 - k {
      assert draws[2..][k] == draws[k + 2];
    }
  }

  /** One round of `generateTile`, as the loop sees it: the pair it appends
      and the pool it leaves keep the dealt connections on course. */
  lemma DealRound(conns: seq<Connection>, pool: seq<int>, rest: seq<int>, whole: seq<Connection>)
    requires |rest| % 2 == 0 && 2 <= |rest| <= |pool| && DrawsFit(rest, |pool|)
    requires conns + Deal(pool, rest) == whole
    ensures var p1 := Remove(pool, rest[0]);
      var p2 := Remove(p1, rest[1]);
      DrawsFit(rest[2..], |p2|) && conns + [(pool[rest[0]], p1[rest[1]])] + Deal(p2, rest[2..]) == whole
  {
    DealStep(pool, rest);
    var p1 := Remove(pool, rest[0]);
    ConcatAssoc(conns, [(pool[rest[0]], p1[rest[1]])], Deal(Remove(p1, rest[1]), rest[2..]));
  }

  lemma ConcatAssoc(a: seq<Connection>, b: seq<Connection>, c: seq<Connection>)
    ensures a + b + c == a + (b + c)
  {
  }

  /** The draws left after `round` rounds come in pairs. */
  lemma EvenRest(round: int)
    ensures (12 - 2 * round) % 2 == 0
  {
  }

  /** Dealing the whole pool uses every pin of the pool exactly as often as the
      pool holds it. */
  lemma {:induction false} DealUsesPool(pool: seq<int>, draws: seq<int>)
    requires |draws| % 2 == 0 && |draws| == |pool| && DrawsFit(draws, |pool|)
    ensures multiset(Pins(Deal(pool, draws))) == multiset(pool)
    decreases |draws|
  {
    if draws != [] {
      var a := pool[draws[0]];
      var rest := Remove(pool, draws[0]);
      var b := rest[draws[1]];
      var left := Remove(rest, draws[1]);
      RemoveCounts(pool, draws[0]);
      RemoveCounts(rest, draws[1]);
      DealStep(pool, draws);
      DealUsesPool(left, draws[2..]);
      PinsPrepend((a, b), Deal(left, draws[2..]));
    }
  }

  /** The pins of a connection list with one more connection in front. */
  lemma PinsPrepend(x: Connection, t: seq<Connection>)
    ensures multiset(Pins([x] + t)) == multiset{x.0, x.1} + multiset(Pins(t))
  {
    assert ([x] + t)[1..] == t;
  }

  /** A list without repeats holds each value at most once. */
  lemma {:induction false} NoDupCount(t: seq<int>, x: int)
    requires NoDup(t)
    ensures multiset(t)[x] <= 1
  {
    if t != [] {
      assert t == [t[0]] + t[1..];
      assert NoDup(t[1..]) by {
        forall i, j | 0 <= i < j < |t| - 1 ensures Differ(t[1..], i, j) {
          assert Differ(t, i + 1, j + 1);
        }
      }
      NoDupCount(t[1..], x);
      assert t[0] !in t[1..] by {
        forall k | 0 <= k < |t| - 1 ensures t[1..][k] != t[0] {
          assert Differ(t, 0, k + 1);
        }
      }
    }
  }

  /** A value at two positions is held at least twice. */
  lemma RepeatCount(s: seq<int>, i: int, j: int)
    requires 0 <= i < j < |s| && s[i] == s[j]
    ensures multiset(s)[s[i]] >= 2
  {
    assert s == s[..i] + [s[i]] + s[i + 1..j] + [s[j]] + s[j + 1..];
  }

  /** Two lists with the same multiset of values: if one has no repeats,
      neither has the other. */
  lemma SameCountsNoDup(s: seq<int>, t: seq<int>)
    requires multiset(s) == multiset(t) && NoDup(t)
    ensures NoDup(s)
  {
    forall i, j | 0 <= i < j < |s| ensures Differ(s, i, j) {
      NoDupCount(t, s[i]);
      if s[i] == s[j] {
        RepeatCount(s, i, j);
      }
    }
  }

  /** Two lists with the same multiset of values hold the same values. */
  lemma SameCountsSameMembers(s: seq<int>, t: seq<int>)
    requires multiset(s) == multiset(t)
    ensures forall p :: p in s <==> p in t
  {
    forall p ensures p in s <==> p in t {
      assert p in s <==> p in multiset(s);
      assert p in t <==> p in multiset(t);
    }
  }

  /** The pool lists each pin 0..11 once. */
  lemma PoolFacts()
    ensures NoDup(Pool) && forall p :: p in Pool <==> 0 <= p < 12
  {
    forall i, j | 0 <= i < j < 12 ensures Differ(Pool, i, j) {
    }
    forall p | 0 <= p < 12 ensures p in Pool {
      assert Pool[p] == p;
    }
  }

  /** Every piece `generateTile` deals is complete: six connections that use
      each of the twelve pins once. */
  lemma DealIsPartition(draws: seq<int>)
    requires |draws| == 12 && DrawsFit(draws, 12)
    ensures IsPartition(Deal(Pool, draws))
  {
    PoolFacts();
    DealPartitionFrom(Pool, draws);
  }

  lemma DealPartitionFrom(pool: seq<int>, draws: seq<int>)
    requires |pool| == 12 && NoDup(pool) && forall p :: p in pool <==> 0 <= p < 12
    requires |draws| == 12 && DrawsFit(draws, 12)
    ensures IsPartition(Deal(pool, draws))
  {
    var d := Deal(pool, draws);
    DealUsesPool(pool, draws);
    SameCountsNoDup(Pins(d), pool);
    SameCountsSameMembers(Pins(d), pool);
  }

  /** The points for a chain of `n` new crossings, 1 + 2 + ... + n, and their
      closed form. */
  function Triangle(n: nat): (r: nat)
    ensures 2 * r == n * (n + 1)
  {
    if n == 0 then 0 else Triangle(n - 1) + n
  }

  /** A longer chain earns strictly more points. */
  lemma {:induction false} TriangleGrows(m: nat, n: nat)
    requires m < n
    ensures Triangle(m) < Triangle(n)
    decreases n
  {
    if m < n - 1 {
      TriangleGrows(m, n - 1);
    }
  }

  // ---------------------------------------------------------------------------
  // The game

  class Game {
    const field: Field
    var pocket: Tile
    var nextTile: Tile
    var score: int

    /** The board keeps its invariant, the two pieces in hand are distinct
        objects and both are complete. */
    ghost predicate Valid()
      reads this, field, field.path, pocket, nextTile
    {
      field.Valid() && pocket != nextTile &&
      IsPartition(pocket.connections) && IsPartition(nextTile.connections)
    }

    /** `Game()`: a fresh board and two dealt pieces, the one in hand first. */
    constructor (draws1: seq<int>, draws2: seq<int>)
      requires |draws1| == 12 && DrawsFit(draws1, 12)
      requires |draws2| == 12 && DrawsFit(draws2, 12)
      ensures Valid() && score == 0
      ensures nextTile.connections == Deal(Pool, draws1) && pocket.connections == Deal(Pool, draws2)
      ensures !field.pathFinished && field.path.items == [Seed] && field.nextPlace == (5, 5)
      ensures fresh(field) && IsGrid(field.tiles) && forall p :: InGrid(p) ==> Cell(field.tiles, p) == LayoutKind(p)
    {
      field := new Field();
      var t1 := Game.GenerateTile(draws1);
      var t2 := Game.GenerateTile(draws2);
      nextTile, pocket := t1, t2;
      score := 0;
    }

    /** `isGameOver()`: the chain has reached a Border or Zero piece; while
        it has not, the chain waits at an open cell. */
    function IsGameOver(): (r: bool)
      requires Valid()
      reads this, field, field.path, pocket, nextTile
      ensures r <==> field.pathFinished
      ensures !r ==> field.Open()
    {
      field.pathFinished
    }

    /** `usePocket()`: swap the piece in hand with the one kept aside. */
    method UsePocket()
      requires Valid()
      modifies this
      ensures Valid()
      ensures pocket == old(nextTile) && nextTile == old(pocket) && score == old(score)
    {
      pocket, nextTile := nextTile, pocket;
    }

    /** `rotateTileRight()`: turn the piece in hand one edge clockwise. */
    method RotateTileRight()
      requires Valid()
      modifies nextTile
      ensures Valid()
      ensures nextTile.connections == Rotated(old(nextTile.connections), 1)
      ensures pocket.connections == old(pocket.connections)
    {
      RotationKeepsPartition(nextTile.connections, 1);
      nextTile.RotateRight();
    }

    /** `rotateTileLeft()`: turn the piece in hand one edge counter-clockwise. */
    method RotateTileLeft()
      requires Valid()
      modifies nextTile
      ensures Valid()
      ensures nextTile.connections == Rotated(old(nextTile.connections), -1)
      ensures pocket.connections == old(pocket.connections)
    {
      RotationKeepsPartition(nextTile.connections, -1);
      nextTile.RotateLeft();
    }

    /** `pointsCouldBeGathered()`: the points the piece in hand would earn at
        the open cell, `Triangle` of the length of the walk it would start; it
        throws `GameOver` once the game is over. The dry run still records a
        walk that would end the game. */
    method PointsCouldBeGathered() returns (r: Result<int>, ghost items: seq<PathItem>, ghost stop: Place)
      requires Valid()
      modifies field`pathFinished
      ensures Valid()
      ensures field.tiles == old(field.tiles) && field.nextPlace == old(field.nextPlace)
      ensures field.path.items == old(field.path.items)
      ensures old(field.pathFinished) ==> r == Err(GameOver) && field.pathFinished
      ensures !old(field.pathFinished) ==>
        r.Ok? &&
        IsWalk(WithTile(field.tiles, field.nextPlace, nextTile.connections), field.nextPlace,
               field.path.LastOutput(), items, stop) &&
        |items| >= 1 && r.value == Triangle(|items|) &&
        field.pathFinished == Cell(WithTile(field.tiles, field.nextPlace, nextTile.connections), stop).Terminal()
    {
      var points := 0;
      var future := field.FindFuturePath(nextTile.connections);
      if future.Err? {
        return Err(future.error), [], (0, 0);
      }
      items, stop := future.value.items, future.value.place;
      var count := |future.value.items|;
      for i := 0 to count
        invariant points == Triangle(i)
      {
        points := points + i + 1;
      }
      r := Ok(points);
    }

    /** `placeTile()`: once the game is over, throw `GameOver` and change
        nothing; otherwise score the walk of the piece in hand, commit it on
        the board, deal a new piece into the hand and add the points. */
    method PlaceTile(draws: seq<int>) returns (o: Outcome)
      requires Valid() && |draws| == 12 && DrawsFit(draws, 12)
      modifies this, field, field.path
      ensures Valid()
      ensures old(field.pathFinished) ==>
        o == Fail(GameOver) && score == old(score) && nextTile == old(nextTile) && pocket == old(pocket) &&
        field.tiles == old(field.tiles) && field.path.items == old(field.path.items) &&
        field.nextPlace == old(field.nextPlace) && field.pathFinished
      ensures !old(field.pathFinished) ==>
        o == Pass &&
        field.tiles == WithTile(old(field.tiles), old(field.nextPlace), old(nextTile.connections)) &&
        |old(field.path.items)| < |field.path.items| &&
        field.path.items[..|old(field.path.items)|] == old(field.path.items) &&
        IsWalk(field.tiles, old(field.nextPlace), old(field.path.LastOutput()),
               field.path.items[|old(field.path.items)|..], field.nextPlace) &&
        field.pathFinished == Cell(field.tiles, field.nextPlace).Terminal() &&
        score == old(score) + Triangle(|field.path.items| - |old(field.path.items)|)
      ensures !old(field.pathFinished) ==>
        fresh(nextTile) && nextTile.connections == Deal(Pool, draws) && pocket == old(pocket)
    {
      if IsGameOver() {
        return Fail(GameOver);
      }
      ghost var t0, next0, items0 := field.tiles, field.nextPlace, field.path.items;
      ghost var g := WithTile(t0, next0, nextTile.connections);
      ghost var last := field.path.LastOutput();
      ghost var n0 := |items0|;

      ghost var items, stop;
      var points;
      points, items, stop := PointsCouldBeGathered();
      if points.Err? {
        return Fail(GameOver);
      }

      field.PlaceTile(nextTile.connections);
      ghost var added := field.path.items[n0..];
      WalkDeterministic(g, next0, last, items, stop, added, field.nextPlace);
      var tile := GenerateTile(draws);
      nextTile, score := tile, score + points.value;
      return Pass;
    }

    /** `generateTile()`: six rounds, each drawing two pins out of the pool
        and pairing them; `draws` stands for the twelve random numbers. */
    static method GenerateTile(draws: seq<int>) returns (tile: Tile)
      requires |draws| == 12 && DrawsFit(draws, 12)
      ensures fresh(tile) && tile.connections == Deal(Pool, draws)
      ensures IsPartition(tile.connections)
    {
      var conns: seq<Connection> := [];
      var pool := Pool;
      var k := 0;
      ghost var whole := Deal(Pool, draws);
      for round := 0 to 6
        invariant k == 2 * round && |pool| == 12 - k
        invariant DrawsFit(draws[k..], |pool|)
        invariant conns + Deal(pool, draws[k..]) == whole
      {
        ghost var rest := draws[k..];
        EvenRest(round);
        DealRound(conns, pool, rest, whole);
        assert rest[0] == draws[k] && rest[1] == draws[k + 1] && rest[2..] == draws[k + 2..];
        var i := draws[k];
        var a := pool[i];
        pool := Remove(pool, i);
        i := draws[k + 1];
        var b := pool[i];
        pool := Remove(pool, i);
        conns := conns + [(a, b)];
        k := k + 2;
      }
      tile := new Tile.FromConnections(conns);
      assert draws[12..] == [];
      DealIsPartition(draws);
    }
  }
}
