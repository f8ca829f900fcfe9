/** End of game and score: the game is over when neither player has a
    placement; the score is the material difference for the first player. */
module Endgame {
  import opened Geometry
  import opened Board
  import opened Moves
  import opened Transition

  /** Python's any(a != -1 for a in moves). */
  predicate HasPlacement(moves: seq<int>) {
    exists a :: a in moves && a != Pass
  }

  /** terminal */
  predicate Terminal(s: seq<int>)
    requires |s| == 64
  {
    !(HasPlacement(LegalMoves(s, 1)) || HasPlacement(LegalMoves(s, -1)))
  }

  /** ganancia */
  function Score(s: seq<int>): int {
    Count(s, 1) - Count(s, -1)
  }

  /** The game is over exactly when both players' move lists are [Pass],
      that is, when no cell is legal for either player. */
  lemma TerminalIff(s: seq<int>)
    requires |s| == 64
    ensures Terminal(s) <==> LegalMoves(s, 1) == [Pass] && LegalMoves(s, -1) == [Pass]
    ensures Terminal(s) <==> forall k :: 0 <= k < 64 ==> !IsLegal(s, k, 1) && !IsLegal(s, k, -1)
  {
    LegalMovesShape(s, 1);
    LegalMovesShape(s, -1);
    var m1, m2 := LegalMoves(s, 1), LegalMoves(s, -1);
    if m1 != [Pass] {
      assert m1[0] in m1 && m1[0] != Pass;
    }
    if m2 != [Pass] {
      assert m2[0] in m2 && m2[0] != Pass;
    }
  }

  /** On a board of cell values in {-1, 0, 1} every cell is counted once. */
  lemma {:induction false} CountsPartition(s: seq<int>)
    requires forall k :: 0 <= k < |s| ==> -1 <= s[k] <= 1
    ensures Count(s, 1) + Count(s, -1) + Count(s, 0) == |s|
  {
    if s != [] {
      CountsPartition(s[..|s| - 1]);
    }
  }

  /** The score is at most the number of cells in either direction, and on a
      valid board it is determined by the second player's disks and the
      empty cells. */
  lemma ScoreBounds(s: seq<int>)
    requires |s| == 64
    ensures -64 <= Score(s) <= 64
    ensures ValidBoard(s) ==> Score(s) == 64 - Count(s, 0) - 2 * Count(s, -1)
  {
    CountsDisjoint(s, 1, -1);
    if ValidBoard(s) {
      CountsPartition(s);
    }
  }

  /** A placement on an empty cell moves the score by one for the placed disk
      and two for every disk it turns over, in the mover's favour. */
  lemma ScoreAfterMove(s: seq<int>, a: Move, j: Player)
    requires |s| == 64 && a != Pass && s[a] == 0
    ensures j == 1 ==> Score(Apply(s, a, j)) == Score(s) + 1 + 2 * |Captured(s, a, j, Directions)|
    ensures j == -1 ==> Score(Apply(s, a, j)) == Score(s) - 1 - 2 * |Captured(s, a, j, Directions)|
  {
    var t, o := Apply(s, a, j), Opponent(j);
    ApplyCounts(s, a, j);
    if j == 1 {
      assert Score(t) == Count(t, j) - Count(t, o);
    } else {
      assert Score(t) == Count(t, o) - Count(t, j);
    }
  }
}
