/** Board values: a position is a sequence of 64 cell values indexed
    row * 8 + col, holding 0 (empty), 1 (first player) or -1 (second player). */
module Board {

  /** A player is 1 or -1; the opponent of j is -j. */
  type Player = j: int | j == 1 || j == -1 witness 1

  function Opponent(j: Player): (o: Player)
    ensures o == -(j as int) && o != j
  {
    if j == 1 then -1 else 1
  }

  /** A move is a cell index in [0, 63] or the pass sentinel -1. */
  type Move = a: int | -1 <= a < 64

  const Pass: Move := -1

  predicate ValidBoard(s: seq<int>) {
    |s| == 64 && forall k :: 0 <= k < 64 ==> -1 <= s[k] <= 1
  }

  /** Number of cells of s equal to v (Python's tuple.count). */
  function Count(s: seq<int>, v: int): (n: nat)
    ensures n <= |s|
  {
    if s == [] then 0
    else Count(s[..|s| - 1], v) + (if s[|s| - 1] == v then 1 else 0)
  }

  /** The starting position and the player to move: an empty board with the
      first player on (3,3) and (4,4) and the second player on (3,4) and (4,3). */
  function Initial(): (init: (seq<int>, Player))
    ensures ValidBoard(init.0) && init.1 == 1
    ensures forall k :: 0 <= k < 64 ==>
      init.0[k] == (if k == 27 || k == 36 then 1 else if k == 28 || k == 35 then -1 else 0)
  {
    var board := seq(64, _ => 0);
    (board[27 := 1][36 := 1][28 := -1][35 := -1], 1)
  }

  /** Two cells of the same colour cannot be counted twice: the two counts
      together never exceed the length of the board. */
  lemma {:induction false} CountsDisjoint(s: seq<int>, v: int, w: int)
    requires v != w
    ensures Count(s, v) + Count(s, w) <= |s|
  {
    if s != [] {
      CountsDisjoint(s[..|s| - 1], v, w);
    }
  }

  lemma {:induction false} CountPrefix(s: seq<int>, n: nat, v: int)
    requires n < |s|
    ensures Count(s[..n + 1], v) == Count(s[..n], v) + (if s[n] == v then 1 else 0)
  {
    assert s[..n + 1][..n] == s[..n];
  }

  /** The indices of the cells of s that hold v. */
  function CellsOf(s: seq<int>, v: int): set<int> {
    set k | 0 <= k < |s| && s[k] == v
  }

  /** Count counts exactly the cells that hold v. */
  lemma {:induction false} CountIsCard(s: seq<int>, v: int)
    ensures Count(s, v) == |CellsOf(s, v)|
  {
    if s != [] {
      var n := |s| - 1;
      CountIsCard(s[..n], v);
      assert CellsOf(s, v) == CellsOf(s[..n], v) + (if s[n] == v then {n} else {});
    }
  }
}
