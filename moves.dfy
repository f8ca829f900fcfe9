/** Legal-move generation: a placement is legal on an empty cell from which
    some direction outflanks; the list of legal moves is ascending, or exactly
    the pass sentinel when there is none. */
module Moves {
  import opened Geometry
  import opened Board
  import opened Scanner

  /** is_legal_move's `any` over a list of directions. */
  predicate AnyOutflank(b: seq<int>, i: int, j: Player, ds: seq<Direction>)
    requires |b| == 64 && 0 <= i < 64
  {
    ds != [] && (Outflanks(b, i, j, ds[0]) || AnyOutflank(b, i, j, ds[1..]))
  }

  /** is_legal_move: the cell is empty and one of the eight directions outflanks. */
  predicate IsLegal(b: seq<int>, i: int, j: Player)
    requires |b| == 64 && 0 <= i < 64
  {
    b[i] == 0 && AnyOutflank(b, i, j, Directions)
  }

  /** The cells 0 .. n-1 that pass the test legal, in ascending order: the
      shape of the scan in jugadas_legales. */
  function Scan(legal: int -> bool, n: int): seq<int>
    requires 0 <= n
  {
    if n == 0 then [] else Scan(legal, n - 1) + (if legal(n - 1) then [n - 1] else [])
  }

  /** jugadas_legales' test for cell k: empty and legal for j. */
  function LegalAt(s: seq<int>, j: Player): int -> bool
    requires |s| == 64
  {
    (k: int) => 0 <= k < 64 && s[k] == 0 && IsLegal(s, k, j)
  }

  /** The legal placements among cells 0 .. n-1, in the order the scan of
      jugadas_legales appends them. */
  function Placements(s: seq<int>, j: Player, n: int): seq<int>
    requires |s| == 64 && 0 <= n <= 64
  {
    Scan(LegalAt(s, j), n)
  }

  /** jugadas_legales: the placements, or [Pass] when there are none. */
  function LegalMoves(s: seq<int>, j: Player): seq<int>
    requires |s| == 64
  {
    var p := Placements(s, j, 64);
    if p == [] then [Pass] else p
  }

  predicate StrictlyIncreasing(xs: seq<int>) {
    forall m, n :: 0 <= m < n < |xs| ==> xs[m] < xs[n]
  }

  lemma {:induction false} AnyOutflankIff(b: seq<int>, i: int, j: Player, ds: seq<Direction>)
    requires |b| == 64 && 0 <= i < 64
    ensures AnyOutflank(b, i, j, ds) <==> exists m :: 0 <= m < |ds| && Outflanks(b, i, j, ds[m])
  {
    if ds != [] {
      AnyOutflankIff(b, i, j, ds[1..]);
      if m :| 0 <= m < |ds[1..]| && Outflanks(b, i, j, ds[1..][m]) {
        assert ds[1..][m] == ds[m + 1];
      }
      if m :| 0 < m < |ds| && Outflanks(b, i, j, ds[m]) {
        assert ds[1..][m - 1] == ds[m];
      }
    }
  }

  /** A cell is legal exactly when it is empty and, in some direction, one or
      more opponent disks follow it and are closed off by one of the mover's
      disks, all on the board. */
  lemma IsLegalIff(b: seq<int>, i: int, j: Player)
    requires |b| == 64 && 0 <= i < 64
    ensures IsLegal(b, i, j) <==> b[i] == 0 && exists d: Direction, n :: 1 <= n && ConfirmedRun(b, i, j, d, n)
  {
    AnyOutflankIff(b, i, j, Directions);
    DirectionsComplete();
    if d: Direction, n :| 1 <= n && ConfirmedRun(b, i, j, d, n) {
      OutflanksIff(b, i, j, d);
      assert d in Directions;
      var m :| 0 <= m < |Directions| && Directions[m] == d;
    }
    if m :| 0 <= m < |Directions| && Outflanks(b, i, j, Directions[m]) {
      OutflanksIff(b, i, j, Directions[m]);
    }
  }

  lemma {:induction false} ScanSound(legal: int -> bool, n: int)
    requires 0 <= n
    ensures forall x :: x in Scan(legal, n) ==> 0 <= x < n && legal(x)
  {
    if n > 0 {
      ScanSound(legal, n - 1);
    }
  }

  lemma {:induction false} ScanIncreasing(legal: int -> bool, n: int)
    requires 0 <= n
    ensures StrictlyIncreasing(Scan(legal, n))
  {
    if n > 0 {
      ScanIncreasing(legal, n - 1);
      ScanSound(legal, n - 1);
      var prev := Scan(legal, n - 1);
      var extra := if legal(n - 1) then [n - 1] else [];
      forall a, c | 0 <= a < c < |prev + extra| ensures (prev + extra)[a] < (prev + extra)[c] {
        if c >= |prev| {
          assert (prev + extra)[a] == prev[a] && prev[a] in prev;
        }
      }
    }
  }

  lemma {:induction false} ScanComplete(legal: int -> bool, n: int)
    requires 0 <= n
    ensures forall k :: 0 <= k < n && legal(k) ==> k in Scan(legal, n)
  {
    if n > 0 {
      ScanComplete(legal, n - 1);
    }
  }

  /** Placements(s, j, n) is the ascending list of exactly the legal cells below n. */
  lemma PlacementsSpec(s: seq<int>, j: Player, n: int)
    requires |s| == 64 && 0 <= n <= 64
    ensures StrictlyIncreasing(Placements(s, j, n))
    ensures forall x :: x in Placements(s, j, n) ==> 0 <= x < n && IsLegal(s, x, j)
    ensures forall k :: 0 <= k < n && IsLegal(s, k, j) ==> k in Placements(s, j, n)
  {
    ScanIncreasing(LegalAt(s, j), n);
    ScanSound(LegalAt(s, j), n);
    ScanComplete(LegalAt(s, j), n);
  }

  /** The move list is never empty; it is [Pass] exactly when no cell is
      legal, and otherwise it is the ascending list of exactly the legal cells. */
  lemma LegalMovesShape(s: seq<int>, j: Player)
    requires |s| == 64
    ensures LegalMoves(s, j) != []
    ensures LegalMoves(s, j) == [Pass] <==> forall k :: 0 <= k < 64 ==> !IsLegal(s, k, j)
    ensures LegalMoves(s, j) != [Pass] ==>
      StrictlyIncreasing(LegalMoves(s, j)) &&
      (forall x :: x in LegalMoves(s, j) ==> 0 <= x < 64 && IsLegal(s, x, j)) &&
      (forall k :: 0 <= k < 64 && IsLegal(s, k, j) ==> k in LegalMoves(s, j))
    ensures forall x :: x in LegalMoves(s, j) ==> -1 <= x < 64
  {
    PlacementsSpec(s, j, 64);
    var p := Placements(s, j, 64);
    if p != [] {
      assert p[0] in p;
      assert p != [Pass];
    }
  }

  /** A strictly increasing list is determined by its elements. */
  lemma {:induction false} IncreasingUnique(xs: seq<int>, ys: seq<int>)
    requires StrictlyIncreasing(xs) && StrictlyIncreasing(ys)
    requires forall x :: x in xs <==> x in ys
    ensures xs == ys
    decreases |xs|
  {
    if xs != [] {
      assert xs[0] in xs;
    }
    if ys != [] {
      assert ys[0] in ys;
    }
    if xs != [] && ys != [] {
      assert xs[0] in ys && ys[0] in xs;
      assert xs[0] == ys[0];
      forall x ensures x in xs[1..] <==> x in ys[1..] {
        assert x in xs[1..] <==> x in xs && x != xs[0];
        assert x in ys[1..] <==> x in ys && x != ys[0];
      }
      IncreasingUnique(xs[1..], ys[1..]);
      assert xs == [xs[0]] + xs[1..] && ys == [ys[0]] + ys[1..];
    }
  }

  /** The move list is determined by the set of legal cells: any ascending
      non-empty list of exactly the legal cells is it. */
  lemma LegalMovesDetermined(s: seq<int>, j: Player, xs: seq<int>)
    requires |s| == 64 && xs != [] && StrictlyIncreasing(xs)
    requires forall x :: x in xs ==> 0 <= x < 64
    requires forall k :: 0 <= k < 64 ==> (IsLegal(s, k, j) <==> k in xs)
    ensures LegalMoves(s, j) == xs
  {
    LegalMovesShape(s, j);
    var moves := LegalMoves(s, j);
    assert xs[0] in xs;
    assert moves != [Pass];
    forall x ensures x in moves <==> x in xs {
      if x in moves {
        assert 0 <= x < 64 && IsLegal(s, x, j);
      }
    }
    IncreasingUnique(moves, xs);
  }
}
