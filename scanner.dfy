/** The direction scanner: the walk outward from a cell along one ray, as
    flip_direction performs it, and its meaning as a confirmed run of
    opponent disks ended by one of the mover's disks. */
module Scanner {
  import opened Geometry
  import opened Board

  /** The cells equal to v met consecutively from (r, c) in direction d,
      as (row, col) pairs: the list flip_direction collects. */
  function Run(b: seq<int>, r: int, c: int, d: Direction, v: int): seq<(int, int)>
    requires |b| == 64
    decreases Room(r, c, d)
  {
    if InBounds(r, c) && b[Index(r, c)] == v then [(r, c)] + Run(b, r + d.dr, c + d.dc, d, v)
    else []
  }

  /** The first cell after that run: where the walk of flip_direction stops. */
  function RunEnd(b: seq<int>, r: int, c: int, d: Direction, v: int): (int, int)
    requires |b| == 64
    decreases Room(r, c, d)
  {
    if InBounds(r, c) && b[Index(r, c)] == v then RunEnd(b, r + d.dr, c + d.dc, d, v)
    else (r, c)
  }

  predicate HoldsAt(b: seq<int>, p: (int, int), v: int)
    requires |b| == 64
  {
    InBounds(p.0, p.1) && b[Index(p.0, p.1)] == v
  }

  /** The cells that flip_direction turns over for player j placing at i in
      direction d: the run of -j cells starting one step from i, kept only
      when the cell after it is in bounds and holds j. */
  function Flips(b: seq<int>, i: int, j: Player, d: Direction): seq<(int, int)>
    requires |b| == 64 && 0 <= i < 64
  {
    var r, c := i / 8 + d.dr, i % 8 + d.dc;
    if HoldsAt(b, RunEnd(b, r, c, d, Opponent(j)), j) then Run(b, r, c, d, Opponent(j)) else []
  }

  /** The legality probe of one direction: the ray outflanks something. */
  predicate Outflanks(b: seq<int>, i: int, j: Player, d: Direction)
    requires |b| == 64 && 0 <= i < 64
  {
    Flips(b, i, j, d) != []
  }

  /** The n cells 1..n steps from i in direction d hold -j, and the cell
      n + 1 steps away is in bounds and holds j. */
  ghost predicate ConfirmedRun(b: seq<int>, i: int, j: Player, d: Direction, n: int)
    requires |b| == 64
  {
    0 <= n && (forall m :: 1 <= m <= n ==> HoldsAt(b, At(i, d, m), Opponent(j))) && HoldsAt(b, At(i, d, n + 1), j)
  }

  /** Two boards agree on every cell on direction d's side of (r0, c0). */
  ghost predicate AgreeToward(b1: seq<int>, b2: seq<int>, r0: int, c0: int, d: Direction)
    requires |b1| == 64 && |b2| == 64
  {
    forall r, c :: InBounds(r, c) && Toward(r0, c0, r, c, d) ==> b1[Index(r, c)] == b2[Index(r, c)]
  }

  /** One step of the walk: a cell holding v joins the run and the walk goes
      on; any other cell, or leaving the board, ends it there. */
  lemma RunStep(b: seq<int>, r: int, c: int, d: Direction, v: int)
    requires |b| == 64
    ensures InBounds(r, c) && b[Index(r, c)] == v ==>
      Run(b, r, c, d, v) == [(r, c)] + Run(b, r + d.dr, c + d.dc, d, v) &&
      RunEnd(b, r, c, d, v) == RunEnd(b, r + d.dr, c + d.dc, d, v)
    ensures !(InBounds(r, c) && b[Index(r, c)] == v) ==>
      Run(b, r, c, d, v) == [] && RunEnd(b, r, c, d, v) == (r, c)
  {
  }

  /** A step of the walk over a cell holding v does not change where it ends. */
  lemma EndStep(b: seq<int>, r: int, c: int, d: Direction, v: int)
    requires |b| == 64 && InBounds(r, c) && b[Index(r, c)] == v
    ensures RunEnd(b, r, c, d, v) == RunEnd(b, r + d.dr, c + d.dc, d, v)
    ensures Room(r + d.dr, c + d.dc, d) < Room(r, c, d)
  {
  }

  /** A direction outflanks exactly when the cell next to the origin holds the
      opponent and the walk over the opponent's disks ends on one of j's. */
  lemma OutflanksByEnd(b: seq<int>, i: int, j: Player, d: Direction)
    requires |b| == 64 && 0 <= i < 64
    ensures var r, c := i / 8 + d.dr, i % 8 + d.dc;
      Outflanks(b, i, j, d) <==> HoldsAt(b, (r, c), Opponent(j)) && HoldsAt(b, RunEnd(b, r, c, d, Opponent(j)), j)
  {
    RunStep(b, i / 8 + d.dr, i % 8 + d.dc, d, Opponent(j));
  }

  /** The run lies on consecutive steps from (r, c) and every cell of it holds v. */
  lemma {:induction false} RunCells(b: seq<int>, r: int, c: int, d: Direction, v: int)
    requires |b| == 64
    ensures forall m :: 0 <= m < |Run(b, r, c, d, v)| ==>
      Run(b, r, c, d, v)[m] == Pos(r, c, d, m) && HoldsAt(b, Run(b, r, c, d, v)[m], v)
    decreases Room(r, c, d)
  {
    if InBounds(r, c) && b[Index(r, c)] == v {
      var r', c' := r + d.dr, c + d.dc;
      RunCells(b, r', c', d, v);
      var rest := Run(b, r', c', d, v);
      var run := Run(b, r, c, d, v);
      assert run == [(r, c)] + rest;
      forall m | 1 <= m < |run|
        ensures run[m] == Pos(r, c, d, m) && HoldsAt(b, run[m], v)
      {
        assert run[m] == rest[m - 1];
      }
    }
  }

  /** The walk stops right after the run, on the first cell that is off the
      board or does not hold v. */
  lemma {:induction false} RunStop(b: seq<int>, r: int, c: int, d: Direction, v: int)
    requires |b| == 64
    ensures RunEnd(b, r, c, d, v) == Pos(r, c, d, |Run(b, r, c, d, v)|)
    ensures !HoldsAt(b, RunEnd(b, r, c, d, v), v)
    decreases Room(r, c, d)
  {
    if InBounds(r, c) && b[Index(r, c)] == v {
      var r', c' := r + d.dr, c + d.dc;
      RunStop(b, r', c', d, v);
      var n := |Run(b, r', c', d, v)|;
      assert |Run(b, r, c, d, v)| == n + 1;
      assert RunEnd(b, r, c, d, v) == RunEnd(b, r', c', d, v);
    }
  }

  /** A walk that starts on direction d's side of (r0, c0) stays there. */
  lemma {:induction false} RunToward(b: seq<int>, r0: int, c0: int, r: int, c: int, d: Direction, v: int)
    requires |b| == 64 && Toward(r0, c0, r, c, d)
    ensures forall p :: p in Run(b, r, c, d, v) ==> InBounds(p.0, p.1) && Toward(r0, c0, p.0, p.1, d)
    ensures Toward(r0, c0, RunEnd(b, r, c, d, v).0, RunEnd(b, r, c, d, v).1, d)
    decreases Room(r, c, d)
  {
    if InBounds(r, c) && b[Index(r, c)] == v {
      RunToward(b, r0, c0, r + d.dr, c + d.dc, d, v);
    }
  }

  /** A walk reads only cells on its own side of the origin. */
  lemma {:induction false} RunFrame(b1: seq<int>, b2: seq<int>, r0: int, c0: int, r: int, c: int, d: Direction, v: int)
    requires |b1| == 64 && |b2| == 64
    requires Toward(r0, c0, r, c, d) && AgreeToward(b1, b2, r0, c0, d)
    ensures Run(b1, r, c, d, v) == Run(b2, r, c, d, v)
    ensures RunEnd(b1, r, c, d, v) == RunEnd(b2, r, c, d, v)
    decreases Room(r, c, d)
  {
    if InBounds(r, c) {
      assert b1[Index(r, c)] == b2[Index(r, c)];
      if b1[Index(r, c)] == v {
        RunFrame(b1, b2, r0, c0, r + d.dr, c + d.dc, d, v);
      }
    }
  }

  /** What flip_direction does in direction d depends only on the cells on
      direction d's side of the origin. */
  lemma FlipsFrame(b1: seq<int>, b2: seq<int>, i: int, j: Player, d: Direction)
    requires |b1| == 64 && |b2| == 64 && 0 <= i < 64
    requires AgreeToward(b1, b2, i / 8, i % 8, d)
    ensures Flips(b1, i, j, d) == Flips(b2, i, j, d)
  {
    var r, c := i / 8 + d.dr, i % 8 + d.dc;
    RunFrame(b1, b2, i / 8, i % 8, r, c, d, Opponent(j));
    RunToward(b1, i / 8, i % 8, r, c, d, Opponent(j));
    var e := RunEnd(b1, r, c, d, Opponent(j));
    if InBounds(e.0, e.1) {
      assert b1[Index(e.0, e.1)] == b2[Index(e.0, e.1)];
    }
  }

  lemma FlipsCells(b: seq<int>, i: int, j: Player, d: Direction)
    requires |b| == 64 && 0 <= i < 64
    ensures forall p :: p in Flips(b, i, j, d) ==> HoldsAt(b, p, Opponent(j)) && Toward(i / 8, i % 8, p.0, p.1, d)
  {
    var r, c, v := i / 8 + d.dr, i % 8 + d.dc, Opponent(j);
    RunCells(b, r, c, d, v);
    RunToward(b, i / 8, i % 8, r, c, d, v);
  }

  lemma FlipsSteps(b: seq<int>, i: int, j: Player, d: Direction)
    requires |b| == 64 && 0 <= i < 64
    ensures forall m :: 0 <= m < |Flips(b, i, j, d)| ==> Flips(b, i, j, d)[m] == At(i, d, m + 1)
  {
    var r, c, v := i / 8 + d.dr, i % 8 + d.dc, Opponent(j);
    RunCells(b, r, c, d, v);
    var f := Flips(b, i, j, d);
    forall m | 0 <= m < |f| ensures f[m] == At(i, d, m + 1) {
      AtNext(i, d, m);
    }
  }

  lemma FlipsConfirmed(b: seq<int>, i: int, j: Player, d: Direction)
    requires |b| == 64 && 0 <= i < 64
    ensures Flips(b, i, j, d) != [] ==> ConfirmedRun(b, i, j, d, |Flips(b, i, j, d)|)
  {
    var r, c, v := i / 8 + d.dr, i % 8 + d.dc, Opponent(j);
    var f := Flips(b, i, j, d);
    if f != [] {
      FlipsSteps(b, i, j, d);
      FlipsCells(b, i, j, d);
      RunStop(b, r, c, d, v);
      var n := |f|;
      AtNext(i, d, n);
      assert HoldsAt(b, At(i, d, n + 1), j);
      forall m | 1 <= m <= n ensures HoldsAt(b, At(i, d, m), v) {
        assert f[m - 1] == At(i, d, m) && f[m - 1] in f;
      }
    }
  }

  /** Every flipped cell is in bounds, on direction d's side of i, and holds
      the opponent's value; the cells are the consecutive steps 1, 2, ... from
      i, and a non-empty result is a confirmed run. */
  lemma FlipsShape(b: seq<int>, i: int, j: Player, d: Direction)
    requires |b| == 64 && 0 <= i < 64
    ensures forall p :: p in Flips(b, i, j, d) ==> HoldsAt(b, p, Opponent(j)) && Toward(i / 8, i % 8, p.0, p.1, d)
    ensures forall m :: 0 <= m < |Flips(b, i, j, d)| ==> Flips(b, i, j, d)[m] == At(i, d, m + 1)
    ensures Flips(b, i, j, d) != [] ==> ConfirmedRun(b, i, j, d, |Flips(b, i, j, d)|)
  {
    FlipsCells(b, i, j, d);
    FlipsSteps(b, i, j, d);
    FlipsConfirmed(b, i, j, d);
  }

  /** The walk from the cell next to i covers at least the first n steps
      when they all hold v. */
  lemma RunAtLeast(b: seq<int>, i: int, d: Direction, v: int, n: int)
    requires |b| == 64
    requires forall m :: 1 <= m <= n ==> HoldsAt(b, At(i, d, m), v)
    ensures |Run(b, i / 8 + d.dr, i % 8 + d.dc, d, v)| >= n
  {
    var len := |Run(b, i / 8 + d.dr, i % 8 + d.dc, d, v)|;
    RunStop(b, i / 8 + d.dr, i % 8 + d.dc, d, v);
    AtNext(i, d, len);
    if len < n {
      assert false;
    }
  }

  /** The walk from the cell next to i covers at most n steps when step
      n + 1 does not hold v. */
  lemma RunAtMost(b: seq<int>, i: int, d: Direction, v: int, n: int)
    requires |b| == 64 && 0 <= n
    requires !HoldsAt(b, At(i, d, n + 1), v)
    ensures |Run(b, i / 8 + d.dr, i % 8 + d.dc, d, v)| <= n
  {
    var run := Run(b, i / 8 + d.dr, i % 8 + d.dc, d, v);
    RunCells(b, i / 8 + d.dr, i % 8 + d.dc, d, v);
    AtNext(i, d, n);
    if |run| > n {
      assert false;
    }
  }

  /** A confirmed run of length n is exactly what flip_direction flips. */
  lemma ConfirmedRunUnique(b: seq<int>, i: int, j: Player, d: Direction, n: int)
    requires |b| == 64 && 0 <= i < 64
    requires 1 <= n && ConfirmedRun(b, i, j, d, n)
    ensures |Flips(b, i, j, d)| == n
    ensures forall m :: 0 <= m < n ==> Flips(b, i, j, d)[m] == At(i, d, m + 1)
  {
    var v := Opponent(j);
    RunAtLeast(b, i, d, v, n);
    RunAtMost(b, i, d, v, n);
    RunEndAt(b, i, d, v);
    FlipsShape(b, i, j, d);
  }

  /** A walk of length n from the cell next to i stops n + 1 steps from i. */
  lemma RunEndAt(b: seq<int>, i: int, d: Direction, v: int)
    requires |b| == 64
    ensures var n := |Run(b, i / 8 + d.dr, i % 8 + d.dc, d, v)|;
      RunEnd(b, i / 8 + d.dr, i % 8 + d.dc, d, v) == At(i, d, n + 1)
  {
    RunStop(b, i / 8 + d.dr, i % 8 + d.dc, d, v);
    AtNext(i, d, |Run(b, i / 8 + d.dr, i % 8 + d.dc, d, v)|);
  }

  /** The legality probe of one direction succeeds exactly when one or more
      opponent cells follow the origin and are closed off by a mover cell,
      all on the board. */
  lemma OutflanksIff(b: seq<int>, i: int, j: Player, d: Direction)
    requires |b| == 64 && 0 <= i < 64
    ensures Outflanks(b, i, j, d) <==> exists n :: 1 <= n && ConfirmedRun(b, i, j, d, n)
  {
    FlipsShape(b, i, j, d);
    if n :| 1 <= n && ConfirmedRun(b, i, j, d, n) {
      ConfirmedRunUnique(b, i, j, d, n);
    }
  }

  /** One step of flip_direction's collecting loop: the cell it stands on
      holds v, so it moves from the rest of the run to the collected part. */
  lemma CollectStep(b: seq<int>, r0: int, c0: int, r: int, c: int, d: Direction, v: int, flips: seq<(int, int)>)
    requires |b| == 64 && InBounds(r, c) && b[Index(r, c)] == v
    requires flips + Run(b, r, c, d, v) == Run(b, r0, c0, d, v)
    requires RunEnd(b, r, c, d, v) == RunEnd(b, r0, c0, d, v)
    ensures (flips + [(r, c)]) + Run(b, r + d.dr, c + d.dc, d, v) == Run(b, r0, c0, d, v)
    ensures RunEnd(b, r + d.dr, c + d.dc, d, v) == RunEnd(b, r0, c0, d, v)
    ensures Room(r + d.dr, c + d.dc, d) < Room(r, c, d)
  {
    RunStep(b, r, c, d, v);
    assert (flips + [(r, c)]) + Run(b, r + d.dr, c + d.dc, d, v) == flips + Run(b, r, c, d, v);
  }

  /** check_direction's walk, stopped by leaving the board or by an empty
      cell on the opponent's run, finds no outflank. */
  lemma WalkStops(b: seq<int>, i: int, j: Player, d: Direction, r0: int, c0: int, r: int, c: int)
    requires |b| == 64 && 0 <= i < 64 && (r0, c0) == (i / 8 + d.dr, i % 8 + d.dc)
    requires !InBounds(r, c) || b[Index(r, c)] == 0
    requires RunEnd(b, r, c, d, Opponent(j)) == RunEnd(b, r0, c0, d, Opponent(j))
    ensures !Outflanks(b, i, j, d)
  {
    RunStep(b, r, c, d, Opponent(j));
    OutflanksByEnd(b, i, j, d);
  }

  /** check_direction's walk, reaching one of j's disks at the end of the
      opponent's run, outflanks exactly when it has passed an opponent disk. */
  lemma WalkCloses(b: seq<int>, i: int, j: Player, d: Direction, r0: int, c0: int, r: int, c: int, found: bool)
    requires |b| == 64 && 0 <= i < 64 && (r0, c0) == (i / 8 + d.dr, i % 8 + d.dc)
    requires InBounds(r, c) && b[Index(r, c)] == j
    requires RunEnd(b, r, c, d, Opponent(j)) == RunEnd(b, r0, c0, d, Opponent(j))
    requires found ==> HoldsAt(b, (r0, c0), Opponent(j))
    requires !found ==> (r, c) == (r0, c0)
    ensures found == Outflanks(b, i, j, d)
  {
    RunStep(b, r, c, d, Opponent(j));
    OutflanksByEnd(b, i, j, d);
  }

  /** When flip_direction's collecting loop stops, it has collected the whole
      run, and what it flips is that run when j's disk closes it and nothing
      otherwise. */
  lemma CollectEnd(b: seq<int>, i: int, j: Player, d: Direction, r: int, c: int, flips: seq<(int, int)>)
    requires |b| == 64 && 0 <= i < 64
    requires !(InBounds(r, c) && b[Index(r, c)] == Opponent(j))
    requires flips + Run(b, r, c, d, Opponent(j)) == Run(b, i / 8 + d.dr, i % 8 + d.dc, d, Opponent(j))
    requires RunEnd(b, r, c, d, Opponent(j)) == RunEnd(b, i / 8 + d.dr, i % 8 + d.dc, d, Opponent(j))
    ensures Flips(b, i, j, d) == if HoldsAt(b, (r, c), j) then flips else []
    ensures forall q :: 0 <= q < |flips| ==> InBounds(flips[q].0, flips[q].1)
  {
    RunStep(b, r, c, d, Opponent(j));
    assert flips + [] == flips;
    RunCells(b, i / 8 + d.dr, i % 8 + d.dc, d, Opponent(j));
  }
}
