/** Search support: the greedy move orderer (ordena_othello) and the
    material-plus-mobility evaluator (evalua_othello, in exact scaled form). */
module Heuristics {
  import opened Geometry
  import opened Board
  import opened Moves
  import opened Transition
  import opened Endgame

  /** Inserts x before the first element whose key is not larger than x's. */
  function Insert<T>(x: T, xs: seq<T>, key: T -> int): (r: seq<T>)
    ensures |r| == |xs| + 1
  {
    if xs == [] || key(xs[0]) <= key(x) then [x] + xs
    else [xs[0]] + Insert(x, xs[1..], key)
  }

  /** Python's sorted(xs, key=key, reverse=True): a stable sort into
      non-increasing key order. */
  function SortDesc<T>(xs: seq<T>, key: T -> int): (r: seq<T>)
    ensures |r| == |xs|
  {
    if xs == [] then [] else Insert(xs[0], SortDesc(xs[1..], key), key)
  }

  predicate NonIncreasing<T>(xs: seq<T>, key: T -> int) {
    forall m, n :: 0 <= m < n < |xs| ==> key(xs[m]) >= key(xs[n])
  }

  /** The elements of xs whose key is v, in their order in xs. */
  function WithKey<T>(xs: seq<T>, key: T -> int, v: int): seq<T> {
    if xs == [] then [] else (if key(xs[0]) == v then [xs[0]] else []) + WithKey(xs[1..], key, v)
  }

  lemma {:induction false} InsertPermutes<T>(x: T, xs: seq<T>, key: T -> int)
    ensures multiset(Insert(x, xs, key)) == multiset([x] + xs)
  {
    if xs != [] && key(xs[0]) > key(x) {
      InsertPermutes(x, xs[1..], key);
      assert xs == [xs[0]] + xs[1..];
    }
  }

  /** Insert adds no key above a bound that x and every element of xs keep. */
  lemma {:induction false} InsertBounded<T>(x: T, xs: seq<T>, key: T -> int, k: int)
    requires key(x) <= k && forall n :: 0 <= n < |xs| ==> key(xs[n]) <= k
    ensures forall n :: 0 <= n < |Insert(x, xs, key)| ==> key(Insert(x, xs, key)[n]) <= k
  {
    if xs != [] && key(xs[0]) > key(x) {
      InsertBounded(x, xs[1..], key, k);
      assert Insert(x, xs, key) == [xs[0]] + Insert(x, xs[1..], key);
    }
  }

  lemma {:induction false} InsertSorted<T>(x: T, xs: seq<T>, key: T -> int)
    requires NonIncreasing(xs, key)
    ensures NonIncreasing(Insert(x, xs, key), key)
  {
    if xs != [] && key(xs[0]) > key(x) {
      var tail := Insert(x, xs[1..], key);
      assert NonIncreasing(xs[1..], key);
      InsertSorted(x, xs[1..], key);
      InsertBounded(x, xs[1..], key, key(xs[0]));
      assert Insert(x, xs, key) == [xs[0]] + tail;
    }
  }

  lemma {:induction false} InsertStable<T>(x: T, xs: seq<T>, key: T -> int, v: int)
    ensures WithKey(Insert(x, xs, key), key, v) ==
              (if key(x) == v then [x] + WithKey(xs, key, v) else WithKey(xs, key, v))
  {
    var r := Insert(x, xs, key);
    if xs == [] || key(xs[0]) <= key(x) {
      assert r[0] == x && r[1..] == xs;
      assert WithKey(r, key, v) == (if key(x) == v then [x] else []) + WithKey(xs, key, v);
    } else {
      var tail := Insert(x, xs[1..], key);
      InsertStable(x, xs[1..], key, v);
      assert r[0] == xs[0] && r[1..] == tail;
      var head := if key(xs[0]) == v then [xs[0]] else [];
      assert WithKey(r, key, v) == head + WithKey(tail, key, v);
      assert WithKey(xs, key, v) == head + WithKey(xs[1..], key, v);
      if key(x) == v {
        assert head == [];
      }
    }
  }

  /** The sort returns a permutation of its input, in non-increasing key
      order, and keeps the input order among elements with equal keys. */
  lemma {:induction false} SortDescSpec<T>(xs: seq<T>, key: T -> int)
    ensures multiset(SortDesc(xs, key)) == multiset(xs)
    ensures NonIncreasing(SortDesc(xs, key), key)
    ensures forall v :: WithKey(SortDesc(xs, key), key, v) == WithKey(xs, key, v)
  {
    if xs != [] {
      var rest := SortDesc(xs[1..], key);
      SortDescSpec(xs[1..], key);
      InsertPermutes(xs[0], rest, key);
      InsertSorted(xs[0], rest, key);
      forall v ensures WithKey(SortDesc(xs, key), key, v) == WithKey(xs, key, v) {
        InsertStable(xs[0], rest, key, v);
      }
      assert xs == [xs[0]] + xs[1..];
    }
  }

  /** Among equal keys the sort keeps the input order, so a list whose keys
      are all equal comes back unchanged. */
  lemma {:induction false} SortDescEqualKeys<T>(xs: seq<T>, key: T -> int, v: int)
    requires forall m :: 0 <= m < |xs| ==> key(xs[m]) == v
    ensures SortDesc(xs, key) == xs
  {
    if xs != [] {
      SortDescEqualKeys(xs[1..], key, v);
      assert xs == [xs[0]] + xs[1..];
    }
  }

  /** The cells that hold j in t but did not in s. */
  function Gained(s: seq<int>, t: seq<int>, j: Player): set<int>
    requires |s| == 64 && |t| == 64
  {
    set k | 0 <= k < 64 && t[k] == j && s[k] != j
  }

  /** clave: a pass scores 0; a placement scores the number of cells that
      become j when j plays it. */
  function Key(s: seq<int>, j: Player, a: Move): int
    requires |s| == 64
  {
    if a == Pass then 0 else |Gained(s, Apply(s, a, j), j)|
  }

  /** The key function clave, with s and j fixed. */
  function KeyOf(s: seq<int>, j: Player): Move -> int
    requires |s| == 64
  {
    (a: Move) => Key(s, j, a)
  }

  /** ordena_othello */
  function OrderMoves(moves: seq<Move>, j: Player, s: seq<int>): seq<Move>
    requires |s| == 64
  {
    SortDesc(moves, KeyOf(s, j))
  }

  /** A placement on a cell j does not already hold scores the disks it
      turns over plus the disk placed. */
  lemma KeyCountsFlips(s: seq<int>, j: Player, a: Move)
    requires |s| == 64 && a != Pass && s[a] != j
    ensures Key(s, j, a) == |Captured(s, a, j, Directions)| + 1
  {
    var t := Apply(s, a, j);
    var captured := Captured(s, a, j, Directions);
    forall k | k in captured ensures 0 <= k < 64 && s[k] == Opponent(j) && k != a {
      CapturedToward(s, a, j, Directions, k);
    }
    assert Gained(s, t, j) == captured + {a};
  }

  /** Every placement jugadas_legales offers scores at least 2. */
  lemma LegalMoveKey(s: seq<int>, j: Player, a: Move)
    requires |s| == 64 && a in LegalMoves(s, j) && a != Pass
    ensures Key(s, j, a) >= 2
  {
    LegalMovesCapture(s, j, a);
    KeyCountsFlips(s, j, a);
  }

  /** The orderer returns a permutation of the moves sorted by non-increasing
      key, with ties in their input order. */
  lemma OrderMovesSpec(moves: seq<Move>, j: Player, s: seq<int>)
    requires |s| == 64
    ensures multiset(OrderMoves(moves, j, s)) == multiset(moves)
    ensures forall m, n :: 0 <= m < n < |moves| ==>
      Key(s, j, OrderMoves(moves, j, s)[m]) >= Key(s, j, OrderMoves(moves, j, s)[n])
    ensures forall v :: WithKey(OrderMoves(moves, j, s), KeyOf(s, j), v) == WithKey(moves, KeyOf(s, j), v)
  {
    SortDescSpec(moves, KeyOf(s, j));
  }

  /** len([a for a in moves if a != -1]) */
  function CountPlacements(moves: seq<int>): nat {
    if moves == [] then 0 else (if moves[0] != Pass then 1 else 0) + CountPlacements(moves[1..])
  }

  /** The number of placements available to p. */
  function Mobility(s: seq<int>, p: Player): nat
    requires |s| == 64
  {
    CountPlacements(LegalMoves(s, p))
  }

  /** evalua_othello scaled by 10: ten times the material plus the
      difference in mobility. */
  function Evaluation(s: seq<int>): int
    requires |s| == 64
  {
    10 * Score(s) + (Mobility(s, 1) - Mobility(s, -1))
  }

  /** A scan whose test only passes empty cells yields no more cells than
      are empty, and none of them is the pass sentinel. */
  lemma {:induction false} ScanBoundedByEmpty(s: seq<int>, legal: int -> bool, n: int)
    requires 0 <= n <= |s|
    requires forall k :: 0 <= k < |s| && legal(k) ==> s[k] == 0
    ensures |Scan(legal, n)| <= Count(s[..n], 0)
    ensures CountPlacements(Scan(legal, n)) == |Scan(legal, n)|
  {
    if n > 0 {
      ScanBoundedByEmpty(s, legal, n - 1);
      CountPrefix(s, n - 1, 0);
      CountPlacementsAppend(Scan(legal, n - 1), if legal(n - 1) then [n - 1] else []);
    }
  }

  lemma {:induction false} CountPlacementsAppend(xs: seq<int>, ys: seq<int>)
    ensures CountPlacements(xs + ys) == CountPlacements(xs) + CountPlacements(ys)
  {
    if xs != [] {
      CountPlacementsAppend(xs[1..], ys);
      assert (xs + ys)[0] == xs[0];
      assert (xs + ys)[1..] == xs[1..] + ys;
    } else {
      assert xs + ys == ys;
    }
  }

  /** The placements among the first n cells are bounded by the empty
      cells among them and hold no pass sentinel. */
  lemma PlacementsBounded(s: seq<int>, p: Player, n: int)
    requires |s| == 64 && 0 <= n <= 64
    ensures |Placements(s, p, n)| <= Count(s[..n], 0)
    ensures CountPlacements(Placements(s, p, n)) == |Placements(s, p, n)|
  {
    var legal := LegalAt(s, p);
    forall k | 0 <= k < |s| && legal(k) ensures s[k] == 0 {
    }
    ScanBoundedByEmpty(s, legal, n);
  }

  /** Mobility counts the legal cells; it is 0 exactly when the move list is
      [Pass], and never exceeds the number of empty cells. */
  lemma MobilitySpec(s: seq<int>, p: Player)
    requires |s| == 64
    ensures Mobility(s, p) == |Placements(s, p, 64)|
    ensures Mobility(s, p) == 0 <==> LegalMoves(s, p) == [Pass]
    ensures Mobility(s, p) <= Count(s, 0)
  {
    PlacementsBounded(s, p, 64);
    assert s[..64] == s;
    assert CountPlacements([Pass]) == 0;
  }

  /** Once the game is over the evaluation is the material term alone. */
  lemma TerminalEvaluation(s: seq<int>)
    requires |s| == 64
    ensures Terminal(s) ==> Evaluation(s) == 10 * Score(s)
  {
    TerminalIff(s);
    MobilitySpec(s, 1);
    MobilitySpec(s, -1);
  }
}
