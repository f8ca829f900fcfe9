/** The engine's operations as the source performs them: loops that walk
    a ray and build the move list, and the in-place flipping of a working
    copy of the board, each proved against the functional model. */
module Engine {
  import opened Geometry
  import opened Board
  import opened Scanner
  import Moves
  import Transition

  /** check_direction: walks the ray from i in direction d; true when it has
      seen at least one opponent disk when it reaches one of j's. */
  method CheckDirection(board: seq<int>, i: int, j: Player, d: Direction) returns (ok: bool)
    requires ValidBoard(board) && 0 <= i < 64
    ensures ok == Outflanks(board, i, j, d)
  {
    var row, col := i / 8, i % 8;
    var opponent := Opponent(j);
    row, col := row + d.dr, col + d.dc;
    ghost var r0, c0 := row, col;
    var found := false;
    while 0 <= row < 8 && 0 <= col < 8
      invariant RunEnd(board, row, col, d, opponent) == RunEnd(board, r0, c0, d, opponent)
      invariant found ==> HoldsAt(board, (r0, c0), opponent)
      invariant !found ==> row == r0 && col == c0
      decreases Room(row, col, d)
    {
      var pos := row * 8 + col;
      if board[pos] == 0 {
        break;
      }
      if board[pos] == j {
        WalkCloses(board, i, j, d, r0, c0, row, col, found);
        return found;
      }
      EndStep(board, row, col, d, opponent);
      if board[pos] == opponent {
        found := true;
      }
      row, col := row + d.dr, col + d.dc;
    }
    WalkStops(board, i, j, d, r0, c0, row, col);
    return false;
  }

  /** is_legal_move: the cell is empty and some direction outflanks. */
  method IsLegalMove(board: seq<int>, i: int, j: Player) returns (ok: bool)
    requires ValidBoard(board) && 0 <= i < 64
    ensures ok == Moves.IsLegal(board, i, j)
  {
    if board[i] != 0 {
      return false;
    }
    var n := 0;
    while n < |Directions|
      invariant 0 <= n <= |Directions|
      invariant Moves.AnyOutflank(board, i, j, Directions) == Moves.AnyOutflank(board, i, j, Directions[n..])
    {
      assert Directions[n..][1..] == Directions[n + 1..];
      ok := CheckDirection(board, i, j, Directions[n]);
      if ok {
        return true;
      }
      n := n + 1;
    }
    return false;
  }

  /** jugadas_legales: scans the cells in ascending order, collecting the
      legal placements; [Pass] when there is none. */
  method LegalMoves(s: seq<int>, j: Player) returns (moves: seq<int>)
    requires ValidBoard(s)
    ensures moves == Moves.LegalMoves(s, j)
  {
    var placements := [];
    for i := 0 to 64
      invariant placements == Moves.Placements(s, j, i)
    {
      if s[i] == 0 {
        var legal := IsLegalMove(s, i, j);
        if legal {
          placements := placements + [i];
        }
      }
    }
    if placements != [] {
      return placements;
    }
    return [Pass];
  }

  /** flip_direction: collects the run of opponent disks from i in direction
      d and, if one of j's disks closes it, turns each of them over. */
  method FlipDirection(board: array<int>, i: int, j: Player, d: Direction)
    requires board.Length == 64 && 0 <= i < 64
    modifies board
    ensures board[..] == Transition.FlipDirection(old(board[..]), i, j, d)
  {
    var row, col := i / 8, i % 8;
    var opponent := Opponent(j);
    row, col := row + d.dr, col + d.dc;
    var flips;
    ghost var b := board[..];
    flips, row, col := CollectRun(board, row, col, d, opponent);
    CollectEnd(b, i, j, d, row, col, flips);
    if 0 <= row < 8 && 0 <= col < 8 && board[row * 8 + col] == j {
      TurnOver(board, flips, j);
    } else {
      Transition.FlipDirectionNone(b, i, j, d);
    }
  }

  /** The loop of flip_direction that collects the run of v's disks from
      (r0, c0) and stops on the first cell off the board or not holding v. */
  method CollectRun(board: array<int>, r0: int, c0: int, d: Direction, v: int) returns (flips: seq<(int, int)>, row: int, col: int)
    requires board.Length == 64
    ensures flips == Run(board[..], r0, c0, d, v)
    ensures (row, col) == RunEnd(board[..], r0, c0, d, v)
    ensures !(InBounds(row, col) && board[Index(row, col)] == v)
  {
    ghost var b := board[..];
    flips, row, col := [], r0, c0;
    while 0 <= row < 8 && 0 <= col < 8 && board[row * 8 + col] == v
      invariant flips + Run(b, row, col, d, v) == Run(b, r0, c0, d, v)
      invariant RunEnd(b, row, col, d, v) == RunEnd(b, r0, c0, d, v)
      decreases Room(row, col, d)
    {
      CollectStep(b, r0, c0, row, col, d, v, flips);
      flips := flips + [(row, col)];
      row, col := row + d.dr, col + d.dc;
    }
    RunStep(b, row, col, d, v);
    assert flips + [] == flips;
  }

  /** The loop of flip_direction that turns every collected disk over to j. */
  method TurnOver(board: array<int>, flips: seq<(int, int)>, j: Player)
    requires board.Length == 64
    requires forall q :: 0 <= q < |flips| ==> InBounds(flips[q].0, flips[q].1)
    modifies board
    ensures board[..] == seq(64, k requires 0 <= k < 64 => if k in Transition.Cells(flips) then j as int else old(board[k]))
  {
    ghost var b := board[..];
    for m := 0 to |flips|
      invariant forall k :: 0 <= k < 64 ==> board[k] == if k in Transition.Cells(flips[..m]) then j as int else b[k]
    {
      var r, c := flips[m].0, flips[m].1;
      Transition.CellsSnoc(flips, m);
      board[r * 8 + c] := j;
    }
    assert flips[..|flips|] == flips;
  }

  /** place_disk: puts j's disk on i, then runs flip_direction for each of
      the eight directions in turn on the same board. */
  method PlaceDisk(board: array<int>, i: int, j: Player)
    requires board.Length == 64 && 0 <= i < 64
    modifies board
    ensures board[..] == Transition.Apply(old(board[..]), i, j)
  {
    ghost var s := board[..];
    board[i] := j;
    assert board[..] == Transition.Batch(s, i, j, []);
    for n := 0 to |Directions|
      invariant board[..] == Transition.Batch(s, i, j, Directions[..n])
    {
      DirectionsPrefix(n);
      Transition.BatchStep(s, i, j, Directions[..n], Directions[n]);
      FlipDirection(board, i, j, Directions[n]);
    }
    assert Directions[..|Directions|] == Directions;
  }

  /** transicion: a pass returns the position unchanged; otherwise a working
      copy of the board is updated in place and returned. */
  method ApplyMove(s: seq<int>, a: Move, j: Player) returns (t: seq<int>)
    requires |s| == 64
    ensures t == Transition.Apply(s, a, j)
    ensures a == Pass ==> t == s
  {
    if a == Pass {
      return s;
    }
    var board := new int[64](k requires 0 <= k < 64 => s[k]);
    assert board[..] == s;
    PlaceDisk(board, a, j);
    return board[..];
  }
}
