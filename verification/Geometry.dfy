/** Cells of the tile grid, their order, distances and directions
    (Server/Server/pch.h, Server/Server/GameObject.cpp). */
module Geometry {

  datatype Cell = Cell(x: int, y: int) {
    function Plus(other: Cell): Cell { Cell(x + other.x, y + other.y) }

    function Minus(other: Cell): Cell { Cell(x - other.x, y - other.y) }

    function LengthSquared(): int { x * x + y * y }
  }

  /** Facing directions. The wire enumeration is open, so a peer may also send an
      unknown code. */
  datatype Dir = Up | Down | Left | Right | UnknownDir(code: int)

  function Abs(n: int): nat { if n < 0 then -n else n }

  /** The step distance that path search, monsters and skills all use. */
  function Dist(a: Cell, b: Cell): nat { Abs(a.y - b.y) + Abs(a.x - b.x) }

  /** `VectorInt::operator<`: the order in which a `map` keyed by cells is walked. */
  predicate Less(a: Cell, b: Cell) {
    if a.x != b.x then a.x < b.x else a.y < b.y
  }

  /** The four neighbour offsets, in the order they are tried. */
  const FRONT: seq<Cell> := [Cell(0, -1), Cell(0, 1), Cell(-1, 0), Cell(1, 0)]

  function LookAtDir(from: Cell, to: Cell): Dir {
    var d := to.Minus(from);
    if d.x > 0 then Right
    else if d.x < 0 then Left
    else if d.y > 0 then Down
    else Up
  }

  function FrontCell(pos: Cell, dir: Dir): Cell {
    match dir
    case Down => pos.Plus(Cell(0, 1))
    case Left => pos.Plus(Cell(-1, 0))
    case Right => pos.Plus(Cell(1, 0))
    case Up => pos.Plus(Cell(0, -1))
    case UnknownDir(_) => pos
  }

  /** Looking at an adjacent cell and looking ahead are inverse to each other:
      the cell in front is the one that was looked at exactly when it is adjacent. */
  lemma {:induction false} LookThenFront(from: Cell, to: Cell)
    ensures FrontCell(from, LookAtDir(from, to)) == to <==> Dist(from, to) == 1
  {
  }

  /** Which way the directions point. */
  lemma {:induction false} DirectionsPoint(pos: Cell, dir: Dir)
    ensures FrontCell(pos, dir).x - pos.x == if dir == Right then 1 else if dir == Left then -1 else 0
    ensures FrontCell(pos, dir).y - pos.y == if dir == Down then 1 else if dir == Up then -1 else 0
  {
  }

  /** After turning towards another cell, the cell ahead is one step nearer to it; and as
      long as the two differ in x, the turn is a sideways one. */
  lemma {:induction false} TurningPointsNearer(from: Cell, to: Cell)
    requires from != to
    ensures Dist(FrontCell(from, LookAtDir(from, to)), to) == Dist(from, to) - 1
    ensures FrontCell(from, LookAtDir(from, to)).y == from.y <==> from.x != to.x
  {
  }

  function Neighbour(pos: Cell, dir: nat): Cell
    requires dir < 4
  {
    pos.Plus(FRONT[dir])
  }

  /** The offsets reach exactly the cells one step away. */
  lemma {:induction false} NeighboursAreAdjacent(a: Cell, b: Cell)
    ensures Dist(a, b) == 1 <==> exists k: nat :: k < 4 && b == Neighbour(a, k)
  {
    if Dist(a, b) == 1 {
      var k := if b.y < a.y then 0 else if b.y > a.y then 1 else if b.x < a.x then 2 else 3;
      assert b == Neighbour(a, k);
    }
  }

  /** The first n neighbours. */
  ghost function Tried(a: Cell, n: nat): set<Cell>
    requires n <= 4
  {
    if n == 0 then {} else Tried(a, n - 1) + {Neighbour(a, n - 1)}
  }

  lemma {:induction false} TriedFacts(a: Cell, dir: nat)
    requires dir < 4
    ensures Neighbour(a, dir) !in Tried(a, dir)
    ensures forall b :: Dist(a, b) == 1 ==> b in Tried(a, 4)
    ensures Dist(a, Neighbour(a, dir)) == 1
  {
    NeighboursAreAdjacent(a, Neighbour(a, dir));
    assert Tried(a, 1) == {Neighbour(a, 0)};
    assert Tried(a, 2) == {Neighbour(a, 0), Neighbour(a, 1)};
    assert Tried(a, 3) == {Neighbour(a, 0), Neighbour(a, 1), Neighbour(a, 2)};
    assert Tried(a, 4) == {Neighbour(a, 0), Neighbour(a, 1), Neighbour(a, 2), Neighbour(a, 3)};
    forall b | Dist(a, b) == 1
      ensures b in Tried(a, 4)
    {
      NeighboursAreAdjacent(a, b);
    }
  }

  /** In a world whose coordinates stay below 2^29 no 32-bit distance computation wraps. */
  lemma {:induction false} DistancesFitInt32(a: Cell, b: Cell)
    requires -0x2000_0000 <= a.x < 0x2000_0000 && -0x2000_0000 <= a.y < 0x2000_0000
    requires -0x2000_0000 <= b.x < 0x2000_0000 && -0x2000_0000 <= b.y < 0x2000_0000
    ensures 0 <= Dist(a, b) < 0x8000_0000
    ensures Dist(a, b) == Dist(b, a)
  {
  }

  /** For offsets of at most 32767 the squared distance fits 32 bits, and up to 2896 it is
      also exact in a 24-bit mantissa.  Both bounds are the largest ones. */
  lemma {:induction false} SquaresFit(offset: Cell, bound: nat)
    requires Abs(offset.x) <= bound && Abs(offset.y) <= bound
    ensures bound <= 32767 ==> 0 <= offset.LengthSquared() < 0x8000_0000
    ensures bound <= 2896 ==> 0 <= offset.LengthSquared() <= 0x100_0000
    ensures Cell(32768, 32768).LengthSquared() >= 0x8000_0000 && Cell(2897, 2897).LengthSquared() > 0x100_0000
  {
    SquareBound(offset.x, bound);
    SquareBound(offset.y, bound);
    if bound <= 32767 { SquareBound(bound, 32767); }
    if bound <= 2896 { SquareBound(bound, 2896); }
  }

  lemma {:induction false} SquareBound(n: int, bound: nat)
    requires Abs(n) <= bound
    ensures 0 <= n * n <= bound * bound
  {
    assert bound * bound - n * n == (bound - n) * (bound + n);
  }

  // ---------- the diamond of cells closer than a bound ----------

  ghost function Ball(centre: Cell, radius: int): set<Cell>
  {
    set x, y | centre.x - radius < x < centre.x + radius && centre.y - radius < y < centre.y + radius
               && Dist(centre, Cell(x, y)) < radius :: Cell(x, y)
  }

  lemma {:induction false} InBall(centre: Cell, radius: int, c: Cell)
    ensures c in Ball(centre, radius) <==> Dist(centre, c) < radius
  {
  }

  /** The i-th of the 4*k cells at distance k > 0. */
  ghost function RingCell(c: Cell, k: nat, i: nat): Cell
    requires i < 4 * k
  {
    if i < k then Cell(c.x + i, c.y + k - i)
    else if i < 2 * k then Cell(c.x + 2 * k - i, c.y + k - i)
    else if i < 3 * k then Cell(c.x + 2 * k - i, c.y - 3 * k + i)
    else Cell(c.x - 4 * k + i, c.y - 3 * k + i)
  }

  ghost function RingCells(c: Cell, k: nat, n: nat): (s: set<Cell>)
    requires n <= 4 * k
    ensures |s| <= n
    ensures forall i :: 0 <= i < n ==> RingCell(c, k, i) in s
  {
    if n == 0 then {} else RingCells(c, k, n - 1) + {RingCell(c, k, n - 1)}
  }

  lemma {:induction false} RingCovers(c: Cell, k: nat, p: Cell)
    requires k > 0 && Dist(c, p) == k
    ensures p in RingCells(c, k, 4 * k)
  {
    var dx, dy := p.x - c.x, p.y - c.y;
    var i := if dx >= 0 && dy > 0 then dx
             else if dx > 0 then 2 * k - dx
             else if dy < 0 then 2 * k - dx
             else 4 * k + dx;
    assert RingCell(c, k, i) == p;
  }

  lemma {:induction false} BallGrows(c: Cell, k: nat)
    requires k > 0
    ensures |Ball(c, k + 1)| <= |Ball(c, k)| + 4 * k
  {
    var ring := RingCells(c, k, 4 * k);
    forall p | p in Ball(c, k + 1)
      ensures p in Ball(c, k) + ring
    {
      if Dist(c, p) == k { RingCovers(c, k, p); }
    }
    SubsetSize(Ball(c, k + 1), Ball(c, k) + ring);
  }

  lemma {:induction false} SmallestBall(c: Cell)
    ensures |Ball(c, 1)| == 1
  {
    assert Ball(c, 1) == {c};
  }

  lemma {:induction false} DiamondGrows(k: nat)
    ensures 2 * (k + 1) * k == 2 * k * (k - 1) + 4 * k
  {
  }

  lemma {:induction false} BallSize(c: Cell, radius: nat)
    requires radius >= 1
    ensures |Ball(c, radius)| <= 2 * radius * (radius - 1) + 1
  {
    if radius == 1 {
      SmallestBall(c);
    } else {
      var k := radius - 1;
      BallSize(c, k);
      BallGrows(c, k);
      DiamondGrows(k);
    }
  }

  lemma {:induction false} SubsetSize<T>(a: set<T>, b: set<T>)
    requires a <= b
    ensures |a| <= |b|
  {
    if a != {} {
      var x :| x in a;
      SubsetSize(a - {x}, b - {x});
    }
  }
}
