/** The opening position: the four legal first moves and the position after
    the first of them. */
module Opening {
  import opened Geometry
  import opened Board
  import opened Scanner
  import opened Moves
  import opened Transition
  import opened Endgame
  import opened Heuristics

  /** The disk that the first player's opening move on k turns over. */
  function CaptureOf(k: int): int {
    if k == 20 || k == 29 then 28 else 35
  }

  /** s holds the starting position of inicializa. */
  predicate IsStart(s: seq<int>) {
    |s| == 64 &&
    forall k :: 0 <= k < 64 ==> s[k] == (if k == 27 || k == 36 then 1 else if k == 28 || k == 35 then -1 else 0)
  }

  /** A single opponent disk closed by one of j's is a confirmed run. */
  lemma ConfirmedRunOne(b: seq<int>, k: int, j: Player, d: Direction)
    requires |b| == 64 && HoldsAt(b, At(k, d, 1), Opponent(j)) && HoldsAt(b, At(k, d, 2), j)
    ensures ConfirmedRun(b, k, j, d, 1)
  {
  }

  lemma LegalByRun(b: seq<int>, k: int, j: Player, d: Direction, n: int)
    requires |b| == 64 && 0 <= k < 64 && b[k] == 0 && 1 <= n && ConfirmedRun(b, k, j, d, n)
    ensures IsLegal(b, k, j)
  {
    IsLegalIff(b, k, j);
  }

  /** From the start every confirmed run for the first player has length one,
      from one of the cells 20, 29, 34, 43 onto the disk on 28 or 35. */
  lemma StartRun(s: seq<int>, k: int, d: Direction, n: int)
    requires IsStart(s) && 0 <= k < 64 && 1 <= n && ConfirmedRun(s, k, 1, d, n)
    ensures k in {20, 29, 34, 43} && n == 1
    ensures Index(At(k, d, 1).0, At(k, d, 1).1) == CaptureOf(k)
  {
    AtFirstSteps(k, d);
    assert HoldsAt(s, At(k, d, 1), -1);
    assert n == 1 ==> HoldsAt(s, At(k, d, 2), 1);
    if n != 1 {
      assert false;
    }
  }

  /** The opening move on k has a confirmed run of one disk. */
  lemma OpeningRun(s: seq<int>, k: int)
    requires IsStart(s) && k in {20, 29, 34, 43}
    ensures ConfirmedRun(s, k, 1, OpeningDirection(k), 1)
  {
    var d := OpeningDirection(k);
    AtFirstSteps(k, d);
    assert s[k + 8 * d.dr + d.dc] == -1 && s[k + 16 * d.dr + 2 * d.dc] == 1;
    ConfirmedRunOne(s, k, 1, d);
  }

  lemma StartMovesLegal(s: seq<int>, k: int)
    requires IsStart(s) && k in {20, 29, 34, 43}
    ensures IsLegal(s, k, 1)
  {
    var d := OpeningDirection(k);
    OpeningRun(s, k);
    LegalByRun(s, k, 1, d, 1);
  }

  lemma StartLegalCells(s: seq<int>, k: int)
    requires IsStart(s) && 0 <= k < 64
    ensures IsLegal(s, k, 1) <==> k in {20, 29, 34, 43}
  {
    IsLegalIff(s, k, 1);
    if k in {20, 29, 34, 43} {
      StartMovesLegal(s, k);
    } else if IsLegal(s, k, 1) {
      var d: Direction, n :| 1 <= n && ConfirmedRun(s, k, 1, d, n);
      StartRun(s, k, d, n);
    }
  }

  lemma StartLegalMoves(s: seq<int>)
    requires IsStart(s)
    ensures LegalMoves(s, 1) == [20, 29, 34, 43]
  {
    forall k | 0 <= k < 64 ensures IsLegal(s, k, 1) <==> k in [20, 29, 34, 43] {
      StartLegalCells(s, k);
    }
    LegalMovesDetermined(s, 1, [20, 29, 34, 43]);
  }

  /** The direction in which the opening move on k captures. */
  function OpeningDirection(k: int): Direction {
    if k == 20 then Step(1, 0) else if k == 29 then Step(0, -1) else if k == 34 then Step(0, 1) else Step(-1, 0)
  }

  lemma StartCapturesTarget(s: seq<int>, a: int)
    requires IsStart(s) && a in {20, 29, 34, 43}
    ensures CaptureOf(a) in Captured(s, a, 1, Directions)
  {
    var d := OpeningDirection(a);
    assert ConfirmedRun(s, a, 1, d, 1);
    assert Index(At(a, d, 1).0, At(a, d, 1).1) == CaptureOf(a);
    assert InConfirmedRun(s, a, 1, CaptureOf(a));
    CapturedIsConfirmedRun(s, a, 1, CaptureOf(a));
  }

  lemma StartCapturesOnlyTarget(s: seq<int>, a: int, k: int)
    requires IsStart(s) && a in {20, 29, 34, 43} && k in Captured(s, a, 1, Directions)
    ensures k == CaptureOf(a)
  {
    CapturedIsConfirmedRun(s, a, 1, k);
    var d: Direction, n, m :| 1 <= m <= n && ConfirmedRun(s, a, 1, d, n) && Index(At(a, d, m).0, At(a, d, m).1) == k;
    StartRun(s, a, d, n);
  }

  /** Each opening move turns over exactly one disk. */
  lemma StartCaptured(s: seq<int>, a: int)
    requires IsStart(s) && a in {20, 29, 34, 43}
    ensures Captured(s, a, 1, Directions) == {CaptureOf(a)}
  {
    StartCapturesTarget(s, a);
    forall k | k in Captured(s, a, 1, Directions) ensures k == CaptureOf(a) {
      StartCapturesOnlyTarget(s, a, k);
    }
  }

  lemma StartScore(s: seq<int>)
    requires IsStart(s)
    ensures Score(s) == 0
  {
    assert CellsOf(s, 1) == {27, 36};
    assert CellsOf(s, -1) == {28, 35};
    CountIsCard(s, 1);
    CountIsCard(s, -1);
  }

  /** After the first player opens on 20 the disk on 28 is turned over: the
      first player holds 20, 27, 28 and 36, the second player 35, and the
      score is 3. */
  lemma StartFirstPly(s: seq<int>)
    requires IsStart(s)
    ensures forall k :: 0 <= k < 64 ==>
      Apply(s, 20, 1)[k] == (if k in {20, 27, 28, 36} then 1 else if k == 35 then -1 else 0)
    ensures Score(Apply(s, 20, 1)) == 3
  {
    StartCaptured(s, 20);
    StartScore(s);
    ScoreAfterMove(s, 20, 1);
  }

  /** Each opening move scores 2: the placed disk and the one it turns over. */
  lemma StartKey(s: seq<int>, a: int)
    requires IsStart(s) && a in {20, 29, 34, 43}
    ensures Key(s, 1, a) == 2
  {
    assert s[a] == 0;
    StartCaptured(s, a);
    KeyCountsFlips(s, 1, a);
  }

  /** ordena_othello keeps the four opening moves in their order, since
      their keys tie. */
  lemma StartOrder(s: seq<int>)
    requires IsStart(s)
    ensures OrderMoves([20, 29, 34, 43], 1, s) == [20, 29, 34, 43]
  {
    var moves: seq<Move> := [20, 29, 34, 43];
    forall m | 0 <= m < |moves| ensures KeyOf(s, 1)(moves[m]) == 2 {
      StartKey(s, moves[m]);
    }
    SortDescEqualKeys(moves, KeyOf(s, 1), 2);
  }

  /** The same facts about the position inicializa returns. */
  lemma InitialPosition()
    ensures LegalMoves(Initial().0, 1) == [20, 29, 34, 43]
    ensures Score(Apply(Initial().0, 20, 1)) == 3
    ensures OrderMoves([20, 29, 34, 43], 1, Initial().0) == [20, 29, 34, 43]
  {
    var s := Initial().0;
    StartLegalMoves(s);
    StartFirstPly(s);
    StartOrder(s);
  }
}
