/** Geometry of the 8x8 board: coordinates, the row-major cell index
    (row * 8 + col), the eight ray directions and positions along a ray. */
module Geometry {

  predicate InBounds(r: int, c: int) {
    0 <= r < 8 && 0 <= c < 8
  }

  /** Row-major cell index of (r, c). */
  function Index(r: int, c: int): int {
    r * 8 + c
  }

  /** A step on the grid; a Direction is one of the eight unit steps. */
  datatype Step = Step(dr: int, dc: int)

  predicate IsUnitStep(d: Step) {
    -1 <= d.dr <= 1 && -1 <= d.dc <= 1 && d != Step(0, 0)
  }

  type Direction = d: Step | IsUnitStep(d) witness Step(1, 0)

  /** The eight directions in the order the engine scans them. */
  const Directions: seq<Direction> :=
    [Step(-1, 0), Step(1, 0), Step(0, -1), Step(0, 1),
     Step(-1, -1), Step(-1, 1), Step(1, -1), Step(1, 1)]

  function Sign(x: int): int {
    if x > 0 then 1 else if x < 0 then -1 else 0
  }

  /** The coordinates k steps from (r, c) in direction d. */
  function Pos(r: int, c: int, d: Direction, k: nat): (int, int)
    decreases k
  {
    if k == 0 then (r, c) else Pos(r + d.dr, c + d.dc, d, k - 1)
  }

  /** The coordinates k steps from cell i in direction d. */
  function At(i: int, d: Direction, k: nat): (int, int) {
    Pos(i / 8, i % 8, d, k)
  }

  /** How many more cells in direction d lie inside the board, counting (r, c). */
  function Room(r: int, c: int, d: Direction): int {
    if d.dr == 1 then 8 - r
    else if d.dr == -1 then r + 1
    else if d.dc == 1 then 8 - c
    else c + 1
  }

  /** (r, c) lies strictly on the side of (r0, c0) that direction d points to:
      every cell of the ray from (r0, c0) in direction d does, and no cell lies
      on this side for two different directions. */
  predicate Toward(r0: int, c0: int, r: int, c: int, d: Direction) {
    Sign(r - r0) == d.dr && Sign(c - c0) == d.dc
  }

  lemma IndexInjective(r: int, c: int, r': int, c': int)
    requires InBounds(r, c) && InBounds(r', c')
    ensures Index(r, c) == Index(r', c') <==> r == r' && c == c'
    ensures 0 <= Index(r, c) < 64
  {
  }

  /** One more step along a ray. */
  lemma AtNext(i: int, d: Direction, m: nat)
    ensures At(i, d, m + 1) == Pos(i / 8 + d.dr, i % 8 + d.dc, d, m)
  {
  }

  /** The first three steps from cell i. */
  lemma AtFirstSteps(i: int, d: Direction)
    ensures At(i, d, 1) == (i / 8 + d.dr, i % 8 + d.dc)
    ensures At(i, d, 2) == (i / 8 + d.dr + d.dr, i % 8 + d.dc + d.dc)
    ensures At(i, d, 3) == (i / 8 + d.dr + d.dr + d.dr, i % 8 + d.dc + d.dc + d.dc)
  {
  }

  /** The list of directions holds each of the eight unit steps exactly once. */
  lemma DirectionsComplete()
    ensures |Directions| == 8
    ensures forall d: Direction :: d in Directions
    ensures forall m, n :: 0 <= m < n < |Directions| ==> Directions[m] != Directions[n]
  {
  }

  /** Directions[n] is new after the first n directions. */
  lemma DirectionsPrefix(n: int)
    requires 0 <= n < |Directions|
    ensures Directions[n] !in Directions[..n]
    ensures Directions[..n + 1] == Directions[..n] + [Directions[n]]
  {
    DirectionsComplete();
  }
}
