/** Tiles of the board: twelve pins around a hexagonal piece (two per edge),
    pairwise connections between them, the geometry that maps an exit pin to the
    facing entry pin of the neighbour, and rotation by whole edges. */
module Tiles {

  /** The two exceptions of the game: `GameError.GameOver` and
      `InternalGameError.InvalidTile`. */
  datatype Error = GameOver | InvalidTile

  /** A value or the error a throwing operation raises. */
  datatype Result<T> = Ok(value: T) | Err(error: Error)

  /** Outcome of a throwing operation that returns nothing. */
  datatype Outcome = Pass | Fail(error: Error)

  /** A connection joins two pins of one tile; the list is unordered in meaning
      but searched in order. */
  type Connection = (int, int)

  /** Swift's `%`: the remainder truncates toward zero, so it is negative for a
      negative dividend. */
  function SwiftRem(a: int, n: int): (r: int)
    requires n > 0
    ensures a >= 0 ==> 0 <= r < n
    ensures a < 0 ==> -n < r <= 0
    ensures (a - r) % n == 0
  {
    if a >= 0 then
      MultipleMod(a - a % n, a / n, n);
      a % n
    else
      var m := -a;
      MultipleMod(a + m % n, -(m / n), n);
      -(m % n)
  }

  /** A multiple of `n` leaves no remainder. */
  lemma MultipleMod(x: int, k: int, n: int)
    requires n > 0 && x == k * n
    ensures x % n == 0
  {
    var d := k - x / n;
    assert n * d == x % n;
    assert d >= 1 ==> n * d >= n;
    assert d <= -1 ==> n * d <= -n;
  }

  /** All pins mentioned by a connection list, in order. */
  function Pins(c: seq<Connection>): (r: seq<int>)
  {
    if c == [] then [] else [c[0].0, c[0].1] + Pins(c[1..])
  }

  /** Positions `i` and `j` of `s` hold different pins. */
  predicate Differ(s: seq<int>, i: int, j: int)
    requires 0 <= i < |s| && 0 <= j < |s|
  {
    s[i] != s[j]
  }

  /** No pin is listed twice. */
  predicate NoDup(s: seq<int>)
  {
    forall i, j :: 0 <= i < j < |s| ==> Differ(s, i, j)
  }

  ghost predicate PinsInRange(c: seq<Connection>)
  {
    forall p :: p in Pins(c) ==> 0 <= p < 12
  }

  /** A complete tile: six connections that use every pin 0..11 exactly once. */
  ghost predicate IsPartition(c: seq<Connection>)
  {
    |c| == 6 && NoDup(Pins(c)) && forall p :: p in Pins(c) <==> 0 <= p < 12
  }

  /** `Tile.output(from:)`: the pin connected to `pin`, searching the
      connections in order and testing the first pin of a pair before the
      second; `InvalidTile` when no connection mentions `pin`. */
  function Output(c: seq<Connection>, pin: int): (r: Result<int>)
    ensures r.Ok? <==> pin in Pins(c)
    ensures r.Err? ==> r.error == InvalidTile
    ensures r.Ok? ==> r.value in Pins(c)
    ensures r.Ok? ==> (pin, r.value) in c || (r.value, pin) in c
  {
    if c == [] then Err(InvalidTile)
    else if c[0].0 == pin then Ok(c[0].1)
    else if c[0].1 == pin then Ok(c[0].0)
    else Output(c[1..], pin)
  }

  /** Connection `x` mentions `pin`. */
  predicate Mentions(x: Connection, pin: int)
  {
    x.0 == pin || x.1 == pin
  }

  /** `output(from:)` answers from the first connection that mentions the pin,
      with the other pin of that pair. */
  lemma {:induction false} OutputFirstMatch(c: seq<Connection>, pin: int, k: int)
    requires 0 <= k < |c| && Mentions(c[k], pin)
    requires forall j :: 0 <= j < k ==> !Mentions(c[j], pin)
    ensures Output(c, pin) == Ok(if c[k].0 == pin then c[k].1 else c[k].0)
  {
    if k > 0 {
      assert !Mentions(c[0], pin);
      forall j | 0 <= j < k - 1 ensures !Mentions(c[1..][j], pin) {
        assert c[1..][j] == c[j + 1];
      }
      OutputFirstMatch(c[1..], pin, k - 1);
    }
  }

  /** `Tile.input(to:)`: the pin of this tile that faces the pin `output` of
      the neighbour that the chain has just left. */
  function Input(output: int): (r: int)
    ensures 0 <= output < 12 ==> 0 <= r < 12 && r % 2 != output % 2
  {
    if SwiftRem(output, 2) == 0 then SwiftRem(output + 12 - 5, 12)
    else SwiftRem(output + 12 + 5, 12)
  }

  /** `Tile.outputFromNeighbourOutput(from:)`: enter at the pin facing the
      neighbour's exit pin and cross this tile. */
  function OutputFromNeighbourOutput(c: seq<Connection>, output: int): (r: Result<int>)
    ensures r.Ok? <==> Input(output) in Pins(c)
    ensures r.Ok? ==> (Input(output), r.value) in c || (r.value, Input(output)) in c
  {
    Output(c, Input(output))
  }

  /** One pin moved by `direction` edges (two pins per edge). */
  function RotatePin(p: int, direction: int): (r: int)
  {
    SwiftRem(p + direction * 2 + 12, 12)
  }

  /** The connection list that `Tile.rotate(direction:)` builds. */
  function Rotated(c: seq<Connection>, direction: int): (r: seq<Connection>)
  {
    if c == [] then []
    else [(RotatePin(c[0].0, direction), RotatePin(c[0].1, direction))] + Rotated(c[1..], direction)
  }

  /** The piece kinds of the class hierarchy; `Normal` is a plain
      `NonEmptyTile` carrying its connections. */
  datatype Kind = Placeholder | Empty | Border | Zero | Normal(connections: seq<Connection>)
  {
    /** `is BorderTile || is ZeroTile`: the chain stops and the game ends. */
    predicate Terminal() { Border? || Zero? }

    /** `is NonEmptyTile`: true of border and centre pieces too, since those
        classes derive from `NonEmptyTile`. */
    predicate NonEmpty() { Border? || Zero? || Normal? }
  }

  /** The two `is` tests of the walks, taken in the source's order: a piece
      stops the walk and ends the game exactly when it is Border or Zero; of
      the rest, a piece is crossed exactly when it is a plain `NonEmptyTile`,
      and Placeholder and Empty stop the walk without ending the game. */
  lemma KindTests(k: Kind)
    ensures k.Terminal() ==> k.NonEmpty()
    ensures !k.Terminal() && k.NonEmpty() <==> k.Normal?
    ensures !k.NonEmpty() <==> k == Placeholder || k == Empty
  {
  }

  /** A tile whose connections are changed in place by rotation. */
  class Tile {
    var connections: seq<Connection>

    constructor FromConnections(c: seq<Connection>)
      ensures connections == c
    {
      connections := c;
    }

    /** `rotate(direction:)`: shift every pin of every connection. */
    method Rotate(direction: int)
      modifies this
      ensures connections == Rotated(old(connections), direction)
    {
      var c := connections;
      var res: seq<Connection> := [];
      for i := 0 to |c|
        invariant res == Rotated(c[..i], direction)
      {
        var (input, output) := c[i];
        res := res + [(SwiftRem(input + direction * 2 + 12, 12), SwiftRem(output + direction * 2 + 12, 12))];
        RotatedSnoc(c[..i], c[i], direction);
        assert c[..i + 1] == c[..i] + [c[i]];
      }
      assert c[..|c|] == c;
      connections := res;
    }

    method RotateRight()
      modifies this
      ensures connections == Rotated(old(connections), 1)
    {
      Rotate(1);
    }

    method RotateLeft()
      modifies this
      ensures connections == Rotated(old(connections), -1)
    {
      Rotate(-1);
    }
  }

  // ---------------------------------------------------------------------------
  // Lemmas about connections

  lemma {:induction false} RotatedSnoc(c: seq<Connection>, x: Connection, direction: int)
    ensures Rotated(c + [x], direction)
         == Rotated(c, direction) + [(RotatePin(x.0, direction), RotatePin(x.1, direction))]
  {
    if c != [] {
      assert (c + [x])[1..] == c[1..] + [x];
      RotatedSnoc(c[1..], x, direction);
    }
  }

  lemma NoDupHead(x: int, y: int, s: seq<int>)
    requires NoDup([x, y] + s)
    ensures x != y && x !in s && y !in s && NoDup(s)
  {
    var t := [x, y] + s;
    assert Differ(t, 0, 1);
    forall k | 0 <= k < |s| ensures s[k] != x && s[k] != y {
      assert t[k + 2] == s[k];
      assert Differ(t, 0, k + 2) && Differ(t, 1, k + 2);
    }
    forall i, j | 0 <= i < j < |s| ensures Differ(s, i, j) {
      assert Differ(t, i + 2, j + 2);
    }
  }

  /** Connections are symmetric: crossing a tile back from the exit pin leads
      to the entry pin, provided no pin is listed twice. */
  lemma {:induction false} OutputInvolution(c: seq<Connection>, p: int)
    requires NoDup(Pins(c))
    requires Output(c, p).Ok?
    ensures Output(c, Output(c, p).value) == Ok(p)
  {
    NoDupHead(c[0].0, c[0].1, Pins(c[1..]));
    if c[0].0 != p && c[0].1 != p {
      OutputInvolution(c[1..], p);
    }
  }

  /** On a complete tile the lookup never throws for a pin in 0..11, leads to
      a different pin in 0..11, and crossing back returns `p`. */
  lemma PartitionOutput(c: seq<Connection>, p: int)
    requires IsPartition(c)
    requires 0 <= p < 12
    ensures Output(c, p).Ok?
    ensures 0 <= Output(c, p).value < 12 && Output(c, p).value != p
    ensures Output(c, Output(c, p).value) == Ok(p)
  {
    OutputInvolution(c, p);
    OutputNotSelf(c, p);
  }

  lemma {:induction false} OutputNotSelf(c: seq<Connection>, p: int)
    requires NoDup(Pins(c))
    requires Output(c, p).Ok?
    ensures Output(c, p).value != p
  {
    NoDupHead(c[0].0, c[0].1, Pins(c[1..]));
    if c[0].0 != p && c[0].1 != p {
      OutputNotSelf(c[1..], p);
    }
  }

  /** Remainders by 12 of small non-negative numbers, written out. */
  lemma Mod12(a: int)
    requires 0 <= a < 36
    ensures a % 12 == if a < 12 then a else if a < 24 then a - 12 else a - 24
  {
    if 12 <= a < 24 {
      assert a == 12 + (a - 12);
    }
  }

  /** `input(to:)` on a pin, written out: even pins move 7 places on, odd pins
      5 places on, both modulo 12. */
  lemma InputClosed(p: int)
    requires 0 <= p < 12
    ensures Input(p) == if p % 2 == 0 then (if p < 5 then p + 7 else p - 5)
                        else (if p < 7 then p + 5 else p - 7)
  {
    Mod12(p + 7);
    Mod12(p + 17);
  }

  /** `input(to:)` maps the twelve pins onto themselves and undoes itself. */
  lemma InputInvolution(p: int)
    requires 0 <= p < 12
    ensures 0 <= Input(p) < 12 && Input(Input(p)) == p
  {
    InputClosed(p);
    InputClosed(Input(p));
  }

  lemma InputInjective(p: int, q: int)
    requires 0 <= p < 12 && 0 <= q < 12
    requires Input(p) == Input(q)
    ensures p == q
  {
    InputInvolution(p);
    InputInvolution(q);
  }

  lemma RotatePinInverse(p: int)
    requires 0 <= p < 12
    ensures 0 <= RotatePin(p, 1) < 12 && RotatePin(RotatePin(p, 1), -1) == p
    ensures 0 <= RotatePin(p, -1) < 12 && RotatePin(RotatePin(p, -1), 1) == p
  {
    var r, l := RotatePin(p, 1), RotatePin(p, -1);
    Mod12(p + 14);
    Mod12(p + 10);
    Mod12(r + 10);
    Mod12(l + 14);
  }

  /** Unfolding `Pins` once, with the membership facts it gives. */
  lemma PinsCons(c: seq<Connection>)
    requires c != []
    ensures Pins(c) == [c[0].0, c[0].1] + Pins(c[1..])
    ensures c[0].0 in Pins(c) && c[0].1 in Pins(c)
    ensures forall p :: p in Pins(c[1..]) ==> p in Pins(c)
  {
  }

  /** Rotating by one edge either way keeps every pin in 0..11. */
  lemma {:induction false} RotationKeepsRange(c: seq<Connection>, direction: int)
    requires direction == 1 || direction == -1
    requires PinsInRange(c)
    ensures PinsInRange(Rotated(c, direction))
  {
    if c != [] {
      PinsCons(c);
      assert PinsInRange(c[1..]);
      RotationKeepsRange(c[1..], direction);
    }
  }

  /** `rotateLeft` after `rotateRight` restores the connections exactly. */
  lemma {:induction false} RotateLeftUndoesRight(c: seq<Connection>)
    requires PinsInRange(c)
    ensures Rotated(Rotated(c, 1), -1) == c
  {
    if c != [] {
      PinsCons(c);
      RotatePinInverse(c[0].0);
      RotatePinInverse(c[0].1);
      assert PinsInRange(c[1..]);
      RotateLeftUndoesRight(c[1..]);
    }
  }

  /** `rotateRight` after `rotateLeft` restores the connections exactly. */
  lemma {:induction false} RotateRightUndoesLeft(c: seq<Connection>)
    requires PinsInRange(c)
    ensures Rotated(Rotated(c, -1), 1) == c
  {
    if c != [] {
      PinsCons(c);
      RotatePinInverse(c[0].0);
      RotatePinInverse(c[0].1);
      assert PinsInRange(c[1..]);
      RotateRightUndoesLeft(c[1..]);
    }
  }

  /** Six rotations to the right are a full turn. */
  lemma SixRightRotationsRestore(c: seq<Connection>)
    requires PinsInRange(c)
    ensures Rotated(Rotated(Rotated(Rotated(Rotated(Rotated(c, 1), 1), 1), 1), 1), 1) == c
  {
    RotatedCompose(c, 1);
    RotatedCompose(c, 2);
    RotatedCompose(c, 3);
    RotatedCompose(c, 4);
    RotatedCompose(c, 5);
    RotatedFullTurn(c);
  }

  /** One more rotation to the right adds one to the rotation count. */
  lemma {:induction false} RotatedCompose(c: seq<Connection>, k: int)
    requires PinsInRange(c)
    requires 0 <= k <= 5
    ensures Rotated(Rotated(c, k), 1) == Rotated(c, k + 1)
  {
    if c != [] {
      PinsCons(c);
      RotatePinCompose(c[0].0, k);
      RotatePinCompose(c[0].1, k);
      RotatedCompose(c[1..], k);
    }
  }

  lemma {:induction false} RotatedFullTurn(c: seq<Connection>)
    requires PinsInRange(c)
    ensures Rotated(c, 6) == c
  {
    if c != [] {
      PinsCons(c);
      var a, b := c[0].0, c[0].1;
      assert RotatePin(a, 6) == a && RotatePin(b, 6) == b by {
        assert a + 24 - 24 == a && b + 24 - 24 == b;
      }
      RotatedFullTurn(c[1..]);
    }
  }

  lemma RotatePinCompose(p: int, k: int)
    requires 0 <= p < 12
    requires 0 <= k <= 5
    ensures RotatePin(RotatePin(p, k), 1) == RotatePin(p, k + 1)
  {
    var x := p + k * 2 + 12;
    assert 12 <= x < 34;
    assert RotatePin(p, k) == if x < 24 then x - 12 else x - 24;
    assert RotatePin(p, k + 1) == if x + 2 < 24 then x + 2 - 12 else if x + 2 < 36 then x + 2 - 24 else x + 2 - 36;
  }

  /** The pins of a rotated list are the rotated pins. */
  lemma {:induction false} RotatedPins(c: seq<Connection>, direction: int)
    ensures |Pins(Rotated(c, direction))| == |Pins(c)|
    ensures forall k :: 0 <= k < |Pins(c)| ==> Pins(Rotated(c, direction))[k] == RotatePin(Pins(c)[k], direction)
  {
    if c != [] {
      RotatedPins(c[1..], direction);
    }
  }

  /** Rotation by one edge turns a complete tile into a complete tile. */
  lemma RotationKeepsPartition(c: seq<Connection>, direction: int)
    requires direction == 1 || direction == -1
    requires IsPartition(c)
    ensures IsPartition(Rotated(c, direction))
  {
    var s, t := Pins(c), Pins(Rotated(c, direction));
    RotatedPins(c, direction);
    RotatedLength(c, direction);
    forall i, j | 0 <= i < j < |t| ensures Differ(t, i, j) {
      assert Differ(s, i, j);
      assert s[i] in Pins(c) && s[j] in Pins(c);
      RotatePinInverse(s[i]);
      RotatePinInverse(s[j]);
    }
    forall q ensures q in t <==> 0 <= q < 12 {
      if q in t {
        var k :| 0 <= k < |t| && t[k] == q;
        assert s[k] in Pins(c);
      }
      if 0 <= q < 12 {
        var p := RotatePin(q, -direction);
        RotatePinInverse(q);
        assert p in s;
        var k :| 0 <= k < |s| && s[k] == p;
        assert t[k] == q;
      }
    }
  }

  lemma {:induction false} RotatedLength(c: seq<Connection>, direction: int)
    ensures |Rotated(c, direction)| == |c|
  {
    if c != [] {
      RotatedLength(c[1..], direction);
    }
  }
}
