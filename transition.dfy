/** The transition: a pass leaves the position alone; a placement puts the
    mover's disk on the cell and turns over every confirmed run of opponent
    disks around it, and nothing else. */
module Transition {
  import opened Geometry
  import opened Board
  import opened Scanner
  import opened Moves

  /** The board indices of a list of (row, col) cells. */
  function Cells(ps: seq<(int, int)>): set<int> {
    set p | p in ps :: Index(p.0, p.1)
  }

  lemma CellsSnoc(ps: seq<(int, int)>, m: int)
    requires 0 <= m < |ps|
    ensures Cells(ps[..m + 1]) == Cells(ps[..m]) + {Index(ps[m].0, ps[m].1)}
  {
    assert ps[..m + 1] == ps[..m] + [ps[m]];
  }

  /** The effect of flip_direction on a board: the cells it collects in
      direction d become j. */
  function FlipDirection(b: seq<int>, i: int, j: Player, d: Direction): seq<int>
    requires |b| == 64 && 0 <= i < 64
  {
    var flipped := Cells(Flips(b, i, j, d));
    seq(64, k requires 0 <= k < 64 => if k in flipped then j as int else b[k])
  }

  /** A direction with nothing to flip leaves the board as it is. */
  lemma FlipDirectionNone(b: seq<int>, i: int, j: Player, d: Direction)
    requires |b| == 64 && 0 <= i < 64 && Flips(b, i, j, d) == []
    ensures FlipDirection(b, i, j, d) == b
  {
    assert Cells(Flips(b, i, j, d)) == {};
  }

  /** The cells that the directions ds capture, all read from board s. */
  function Captured(s: seq<int>, i: int, j: Player, ds: seq<Direction>): set<int>
    requires |s| == 64 && 0 <= i < 64
  {
    if ds == [] then {}
    else Captured(s, i, j, ds[..|ds| - 1]) + Cells(Flips(s, i, j, ds[|ds| - 1]))
  }

  /** The placement at i with the runs of the directions ds computed on s
      first and then written at once. */
  function Batch(s: seq<int>, i: int, j: Player, ds: seq<Direction>): seq<int>
    requires |s| == 64 && 0 <= i < 64
  {
    var captured := Captured(s, i, j, ds);
    seq(64, k requires 0 <= k < 64 => if k == i || k in captured then j as int else s[k])
  }

  /** transicion: the successor of s when j plays a. */
  function Apply(s: seq<int>, a: Move, j: Player): seq<int>
    requires |s| == 64
  {
    if a == Pass then s else Batch(s, a, j, Directions)
  }

  /** place_disk's passes over the directions ds, one after the other, each
      reading the board the previous passes left. */
  function FlipAll(b: seq<int>, i: int, j: Player, ds: seq<Direction>): seq<int>
    requires |b| == 64 && 0 <= i < 64
    decreases |ds|
  {
    if ds == [] then b else FlipAll(FlipDirection(b, i, j, ds[0]), i, j, ds[1..])
  }

  predicate Distinct(ds: seq<Direction>) {
    forall m, n :: 0 <= m < n < |ds| ==> ds[m] != ds[n]
  }

  lemma DistinctParts(xs: seq<Direction>, ys: seq<Direction>)
    requires Distinct(xs + ys)
    ensures forall x :: x in xs ==> x !in ys
  {
    forall x | x in xs ensures x !in ys {
      var m :| 0 <= m < |xs| && xs[m] == x;
      assert (xs + ys)[m] == x;
      forall n | 0 <= n < |ys| ensures ys[n] != x {
        assert (xs + ys)[|xs| + n] == ys[n];
      }
    }
  }

  /** k lies in some confirmed run around a: 1 <= m <= n steps from a in a
      direction whose first n cells hold the opponent and whose next cell
      holds j. */
  ghost predicate InConfirmedRun(s: seq<int>, a: int, j: Player, k: int)
    requires |s| == 64
  {
    exists d: Direction, n, m :: 1 <= m <= n && ConfirmedRun(s, a, j, d, n) && Index(At(a, d, m).0, At(a, d, m).1) == k
  }

  lemma {:induction false} CapturedIff(s: seq<int>, i: int, j: Player, ds: seq<Direction>, k: int)
    requires |s| == 64 && 0 <= i < 64
    ensures k in Captured(s, i, j, ds) <==> exists d :: d in ds && k in Cells(Flips(s, i, j, d))
  {
    if ds != [] {
      var init := ds[..|ds| - 1];
      CapturedIff(s, i, j, init, k);
      assert ds == init + [ds[|ds| - 1]];
      if d :| d in ds && k in Cells(Flips(s, i, j, d)) {
        if d != ds[|ds| - 1] {
          assert d in init;
        }
      }
    }
  }

  /** Every captured cell is an in-bounds cell on the side of i of one of the
      directions ds, and held the opponent's value. */
  lemma CapturedToward(s: seq<int>, i: int, j: Player, ds: seq<Direction>, k: int)
    requires |s| == 64 && 0 <= i < 64 && k in Captured(s, i, j, ds)
    ensures exists d, r, c :: d in ds && InBounds(r, c) && Toward(i / 8, i % 8, r, c, d) && Index(r, c) == k
    ensures 0 <= k < 64 && s[k] == Opponent(j)
  {
    CapturedIff(s, i, j, ds, k);
    var d :| d in ds && k in Cells(Flips(s, i, j, d));
    var p :| p in Flips(s, i, j, d) && Index(p.0, p.1) == k;
    FlipsShape(s, i, j, d);
    assert HoldsAt(s, p, Opponent(j)) && Toward(i / 8, i % 8, p.0, p.1, d);
    assert d in ds && InBounds(p.0, p.1) && Index(p.0, p.1) == k;
  }

  /** One more direction pass, on the board the earlier passes left, gives
      the same result as computing that direction's run on the original
      board: rays from i share no cell but i itself. */
  lemma BatchStep(s: seq<int>, i: int, j: Player, ds: seq<Direction>, d: Direction)
    requires |s| == 64 && 0 <= i < 64 && d !in ds
    ensures FlipDirection(Batch(s, i, j, ds), i, j, d) == Batch(s, i, j, ds + [d])
  {
    var b := Batch(s, i, j, ds);
    forall r, c | InBounds(r, c) && Toward(i / 8, i % 8, r, c, d)
      ensures b[Index(r, c)] == s[Index(r, c)]
    {
      var k := Index(r, c);
      IndexInjective(r, c, i / 8, i % 8);
      if k in Captured(s, i, j, ds) {
        CapturedToward(s, i, j, ds, k);
        var d', r', c' :| d' in ds && InBounds(r', c') && Toward(i / 8, i % 8, r', c', d') && Index(r', c') == k;
        IndexInjective(r, c, r', c');
        assert false;
      }
    }
    FlipsFrame(b, s, i, j, d);
    assert (ds + [d])[..|ds|] == ds;
    assert Captured(s, i, j, ds + [d]) == Captured(s, i, j, ds) + Cells(Flips(s, i, j, d));
  }

  /** With the directions done already batched, running the remaining passes
      one after the other still gives the batch over all of them. */
  lemma {:induction false} FlipAllIsBatch(s: seq<int>, i: int, j: Player, done: seq<Direction>, rest: seq<Direction>)
    requires |s| == 64 && 0 <= i < 64 && Distinct(done + rest)
    ensures FlipAll(Batch(s, i, j, done), i, j, rest) == Batch(s, i, j, done + rest)
    decreases |rest|
  {
    if rest == [] {
      assert done + rest == done;
    } else {
      var d := rest[0];
      DistinctParts(done, rest);
      BatchStep(s, i, j, done, d);
      assert done + rest == (done + [d]) + rest[1..];
      FlipAllIsBatch(s, i, j, done + [d], rest[1..]);
    }
  }

  /** The batch depends on which directions are processed, not on their order. */
  lemma BatchSameDirections(s: seq<int>, i: int, j: Player, ds: seq<Direction>, es: seq<Direction>)
    requires |s| == 64 && 0 <= i < 64
    requires forall d :: d in ds <==> d in es
    ensures Batch(s, i, j, ds) == Batch(s, i, j, es)
  {
    forall k | 0 <= k < 64 ensures k in Captured(s, i, j, ds) <==> k in Captured(s, i, j, es) {
      CapturedIff(s, i, j, ds, k);
      CapturedIff(s, i, j, es, k);
    }
  }

  /** Processing the eight directions one after the other, in any order,
      on the board the previous passes left, produces exactly the successor
      position Apply describes. */
  lemma DirectionOrderIrrelevant(s: seq<int>, a: int, j: Player, ds: seq<Direction>)
    requires |s| == 64 && 0 <= a < 64
    requires Distinct(ds) && forall d: Direction :: d in ds
    ensures FlipAll(s[a := j], a, j, ds) == Apply(s, a, j)
  {
    assert Batch(s, a, j, []) == s[a := j];
    assert [] + ds == ds;
    FlipAllIsBatch(s, a, j, [], ds);
    DirectionsComplete();
    BatchSameDirections(s, a, j, ds, Directions);
  }

  lemma CapturedIsConfirmedRun(s: seq<int>, a: int, j: Player, k: int)
    requires |s| == 64 && 0 <= a < 64
    ensures k in Captured(s, a, j, Directions) <==> InConfirmedRun(s, a, j, k)
  {
    CapturedIff(s, a, j, Directions, k);
    if k in Captured(s, a, j, Directions) {
      var d :| d in Directions && k in Cells(Flips(s, a, j, d));
      var f := Flips(s, a, j, d);
      var p :| p in f && Index(p.0, p.1) == k;
      var m :| 0 <= m < |f| && f[m] == p;
      FlipsShape(s, a, j, d);
      assert ConfirmedRun(s, a, j, d, |f|) && 1 <= m + 1 <= |f| && At(a, d, m + 1) == p;
    }
    if InConfirmedRun(s, a, j, k) {
      var d: Direction, n, m :| 1 <= m <= n && ConfirmedRun(s, a, j, d, n) && Index(At(a, d, m).0, At(a, d, m).1) == k;
      ConfirmedRunUnique(s, a, j, d, n);
      FlipsShape(s, a, j, d);
      var f := Flips(s, a, j, d);
      assert f[m - 1] == At(a, d, m) && f[m - 1] in f;
      DirectionsComplete();
      assert d in Directions;
    }
  }

  /** Frame condition of a placement: j lands on a, every cell of a confirmed
      opponent run around a becomes j, and every other cell keeps its value;
      the cells that flip all held the opponent's value; cell values stay in
      {-1, 0, 1}. */
  lemma ApplyFrame(s: seq<int>, a: Move, j: Player)
    requires |s| == 64 && a != Pass
    ensures |Apply(s, a, j)| == 64 && Apply(s, a, j)[a] == j
    ensures forall k :: 0 <= k < 64 ==>
      Apply(s, a, j)[k] == (if k == a || InConfirmedRun(s, a, j, k) then j as int else s[k])
    ensures forall k :: 0 <= k < 64 && InConfirmedRun(s, a, j, k) ==> k != a && s[k] == Opponent(j)
    ensures ValidBoard(s) ==> ValidBoard(Apply(s, a, j))
  {
    forall k | 0 <= k < 64
      ensures Apply(s, a, j)[k] == (if k == a || InConfirmedRun(s, a, j, k) then j as int else s[k])
      ensures InConfirmedRun(s, a, j, k) ==> k != a && s[k] == Opponent(j)
    {
      CapturedIsConfirmedRun(s, a, j, k);
      if k in Captured(s, a, j, Directions) {
        CapturedToward(s, a, j, Directions, k);
      }
    }
  }

  /** A placement on an empty cell: the mover's cells become the old ones plus
      the placed cell and the captured cells; the opponent loses exactly the
      captured cells. */
  lemma ApplyCells(s: seq<int>, a: Move, j: Player)
    requires |s| == 64 && a != Pass && s[a] == 0
    ensures CellsOf(Apply(s, a, j), j) == CellsOf(s, j) + {a} + Captured(s, a, j, Directions)
    ensures CellsOf(Apply(s, a, j), Opponent(j)) == CellsOf(s, Opponent(j)) - Captured(s, a, j, Directions)
    ensures Captured(s, a, j, Directions) <= CellsOf(s, Opponent(j))
    ensures a !in CellsOf(s, j) && a !in Captured(s, a, j, Directions)
  {
    var captured := Captured(s, a, j, Directions);
    forall k | k in captured ensures 0 <= k < 64 && s[k] == Opponent(j) {
      CapturedToward(s, a, j, Directions, k);
    }
  }

  /** A placement on an empty cell adds the placed disk and the captured
      disks to the mover's count and takes the captured disks from the
      opponent's. */
  lemma ApplyCounts(s: seq<int>, a: Move, j: Player)
    requires |s| == 64 && a != Pass && s[a] == 0
    ensures Count(Apply(s, a, j), j) == Count(s, j) + 1 + |Captured(s, a, j, Directions)|
    ensures Count(Apply(s, a, j), Opponent(j)) == Count(s, Opponent(j)) - |Captured(s, a, j, Directions)|
  {
    var t, o := Apply(s, a, j), Opponent(j);
    ApplyCells(s, a, j);
    CountIsCard(s, j);
    CountIsCard(s, o);
    CountIsCard(t, j);
    CountIsCard(t, o);
  }

  /** Passing leaves the position as it is. */
  lemma PassIsIdentity(s: seq<int>, j: Player)
    requires |s| == 64
    ensures Apply(s, Pass, j) == s
  {
  }

  /** Every placement jugadas_legales offers is an empty cell, and playing it
      turns over at least one opponent disk. */
  lemma LegalMovesCapture(s: seq<int>, j: Player, a: int)
    requires |s| == 64 && a in LegalMoves(s, j) && a != Pass
    ensures 0 <= a < 64 && s[a] == 0
    ensures Captured(s, a, j, Directions) != {}
    ensures exists k :: 0 <= k < 64 && k != a && s[k] == Opponent(j) && Apply(s, a, j)[k] == j
  {
    LegalMovesShape(s, j);
    IsLegalIff(s, a, j);
    var d: Direction, n :| 1 <= n && ConfirmedRun(s, a, j, d, n);
    assert InConfirmedRun(s, a, j, Index(At(a, d, 1).0, At(a, d, 1).1));
    var k := Index(At(a, d, 1).0, At(a, d, 1).1);
    ApplyFrame(s, a, j);
    CapturedIsConfirmedRun(s, a, j, k);
  }
}
