# Othello rules engine, modelled in Dafny

This project models the rules engine of an Othello (Reversi) implementation.
It covers the class `Othello` in `othello.py` and the module-level move
orderer and evaluator that sit beside it.

- A position is a sequence of 64 cell values, indexed `row * 8 + col`.
  Each cell holds `0` (empty), `1` (first player) or `-1` (second player).
- A move is a cell index, or `-1` for a pass.
- The opponent of `j` is `-j`.

The model has two layers.

- **Functional layer.** Modules `Geometry`, `Board`, `Scanner`, `Moves`,
  `Transition`, `Endgame` and `Heuristics` give each rule as a function.
  - `Flips` is what `flip_direction` collects along one ray: the run of
    opponent disks next to the origin, kept only when one of the mover's
    disks closes it.
  - `Outflanks` is the legality test for one direction.
  - `LegalMoves` is `jugadas_legales`.
  - `Apply` is `transicion`, stated in batch form. Every direction's
    captured cells are computed on the original board, then written at
    once.
  - `Score` is `ganancia`.
  - `Terminal` is `terminal`.
  - `OrderMoves` is `ordena_othello`. It is a stable descending sort by the
    key `clave`.
  - `Evaluation` is `evalua_othello`, scaled by ten.
- **Engine layer.** Module `Engine` holds the source's loops as methods,
  and each method is proved equal to its functional counterpart.
  - `check_direction` walks a ray.
  - `is_legal_move` tries the eight directions in turn.
  - `jugadas_legales` scans the 64 cells.
  - `flip_direction` and `place_disk` update a working copy of the board
    in place; here the copy is an `array<int>`.
  - `transicion` copies the position into that array and back.

The properties proved are these.

- **Move list shape.** The move list is never empty. It is `[-1]` exactly
  when no cell is legal. Otherwise it is the ascending list of exactly the
  legal cells.
- **Outflank.** The outflank test holds exactly when a confirmed run
  exists: one or more opponent disks, closed by one of the mover's disks,
  all on the board.
- **Pass.** A pass is the identity.
- **Frame condition.** A placement sets the placed cell and every cell
  inside a confirmed run to the mover, and leaves every other cell as it
  was. Cell values stay in `{-1, 0, 1}`.
- **Direction order.** Running the eight direction passes one after the
  other, in any order, gives the batch result.
- **Capture.** Every legal placement turns over at least one disk.
- **Game end.** The game is over exactly when both move lists are `[-1]`.
- **Score.** The score lies in `[-64, 64]`, and a placement on an empty
  cell moves it by `1 + 2 * captured`.
- **Orderer.** The orderer returns a permutation of its input. The result
  is non-increasing in the key and stable. The key of a placement on a
  cell the mover does not hold is the number of disks it turns over plus
  one; every legal placement is on such a cell.
- **Evaluation.** On a finished game the evaluation is ten times the score.
- **Opening.** From the position `inicializa` returns, the first player's
  moves are `[20, 29, 34, 43]`, and each turns over one disk. After move
  20 the score is 3. The orderer keeps the four moves in their order.

The orderer is meant to rank moves by the number of opponent disks they
flip, but `clave` counts every cell that becomes the mover's, and that
includes the placed disk. The model follows the code: `Heuristics.Key` is
`clave`, and `Heuristics.KeyCountsFlips` proves that the key of a placement
on a cell the mover does not hold is the number of flips plus one. Among
placements on such cells, which include every legal placement, this gives
the same order. On a cell the mover already holds, `clave` is the number
of flips alone.

## Model

| member | source | states |
|---|---|---|
| Board.Initial | othello.py:4-10 | the start board has the first player on cells 27 and 36 and the second on 28 and 35, all other cells empty; it is a valid board and player 1 moves first |
| Board.Opponent | othello.py:28 | the opponent of j is -j, a player distinct from j |
| Board.CountIsCard | othello.py:77 | `s.count(v)` equals the number of indices whose cell holds v |
| Scanner.OutflanksIff | othello.py:26-42 | one direction outflanks exactly when, for some n >= 1, the cells 1..n steps away hold the opponent and the cell n+1 steps away is on the board and holds j |
| Scanner.FlipsShape | othello.py:57-69 | what flip_direction turns over in one direction are opponent cells on the consecutive steps 1, 2, ... of that ray, on its side of the origin, and a non-empty result is a confirmed run |
| Scanner.ConfirmedRunUnique | othello.py:63-67 | a confirmed run of length n is exactly the n cells flip_direction collects and keeps |
| Scanner.FlipsFrame | othello.py:57-69 | flip_direction in direction d reads only cells on d's side of the origin: boards that agree there yield the same flips |
| Moves.AnyOutflankIff | othello.py:24 | `any` over a list of directions holds exactly when one of its directions outflanks |
| Moves.IsLegalIff | othello.py:20-24 | a cell is legal exactly when it is empty and some direction has a confirmed run from it |
| Moves.PlacementsSpec | othello.py:13-17 | the scan over cells 0..n-1 appends exactly the legal cells below n, in strictly increasing order |
| Moves.LegalMovesShape | othello.py:12-18 | the move list is never empty; it is [-1] exactly when no cell is legal, otherwise the ascending list of exactly the legal cells; every entry is in [-1, 64) |
| Moves.LegalMovesDetermined | othello.py:12-18 | any non-empty strictly increasing list of exactly the legal cells is the move list |
| Transition.FlipDirectionNone | othello.py:67-69 | a direction without a closed run leaves the board unchanged |
| Transition.BatchStep | othello.py:51-55 | one more direction pass on the board the earlier passes left equals the batch over the enlarged direction list on the original board |
| Transition.DirectionOrderIrrelevant | othello.py:51-55 | running the direction passes one after the other, for any order of the eight distinct directions, yields Apply |
| Transition.CapturedIsConfirmedRun | othello.py:51-69 | a cell is captured by a placement exactly when it lies inside a confirmed run from the placed cell |
| Transition.ApplyFrame | othello.py:44-69 | after a placement the placed cell and every cell inside a confirmed run hold j, every other cell is unchanged, flipped cells held the opponent, and a valid board stays valid |
| Transition.ApplyCells | othello.py:51-69 | on an empty target the mover's cells become the old ones plus the target plus the captured cells, and the opponent loses exactly the captured cells |
| Transition.ApplyCounts | othello.py:51-69 | on an empty target the mover's count grows by 1 plus the captured cells and the opponent's shrinks by the captured cells |
| Transition.PassIsIdentity | othello.py:45-46 | a pass returns the position unchanged |
| Transition.LegalMovesCapture | othello.py:12-18 | every placement in the move list is an empty cell and turns over at least one opponent disk |
| Endgame.TerminalIff | othello.py:71-74 | the game is over exactly when both move lists are [-1], and exactly when no cell is legal for either player |
| Endgame.ScoreBounds | othello.py:76-77 | the score lies in [-64, 64]; on a valid board it is 64 minus the empty cells minus twice the second player's disks |
| Endgame.ScoreAfterMove | othello.py:44-55 | a placement on an empty cell moves the score by 1 plus twice the captured cells, towards the mover |
| Heuristics.SortDescSpec | othello.py:88 | the descending sort returns a permutation of its input, non-increasing in the key, with the elements of each key value in their input order |
| Heuristics.SortDescEqualKeys | othello.py:88 | a list whose keys are all equal comes back unchanged |
| Heuristics.KeyCountsFlips | othello.py:80-87 | the key of a placement on a cell j does not hold is the number of captured disks plus one |
| Heuristics.LegalMoveKey | othello.py:80-87 | every placement in the move list has key at least 2, above the pass's 0 |
| Heuristics.OrderMovesSpec | othello.py:79-88 | the orderer returns a permutation of the moves, non-increasing in the key, stable among equal keys |
| Heuristics.MobilitySpec | othello.py:99-100 | mobility is the number of legal cells; it is 0 exactly when the move list is [-1] and never exceeds the number of empty cells |
| Heuristics.TerminalEvaluation | othello.py:95-101 | on a finished game the scaled evaluation is ten times the material difference |
| Engine.CheckDirection | othello.py:26-42 | the walk along one ray returns true exactly when that direction outflanks |
| Engine.IsLegalMove | othello.py:20-24 | the probe returns exactly whether the cell is legal |
| Engine.LegalMoves | othello.py:12-18 | the cell scan returns exactly the functional move list |
| Engine.CollectRun | othello.py:60-66 | the collecting loop returns the run of opponent disks from the first cell and the cell where it stops, which is off the board or not an opponent disk |
| Engine.TurnOver | othello.py:68-69 | every collected cell becomes j and every other cell keeps its value |
| Engine.FlipDirection | othello.py:57-69 | the in-place direction pass leaves the board equal to the functional single-direction pass on the old board |
| Engine.PlaceDisk | othello.py:51-55 | placing and running the eight passes in the source's order leaves the board equal to Apply on the old board |
| Engine.ApplyMove | othello.py:44-49 | the returned position is Apply of the input; a pass returns the input itself |
| Opening.StartLegalMoves | othello.py:12-18 | from the start position the first player's move list is [20, 29, 34, 43] |
| Opening.StartCaptured | othello.py:57-69 | each opening move turns over exactly one disk: 28 for moves 20 and 29, 35 for 34 and 43 |
| Opening.StartScore | othello.py:76-77 | the start position scores 0 |
| Opening.StartFirstPly | othello.py:44-55 | after the first player opens on 20 the first player holds 20, 27, 28, 36, the second holds 35, and the score is 3 |
| Opening.StartKey | othello.py:80-87 | every opening move has key 2 |
| Opening.StartOrder | othello.py:79-88 | the orderer returns [20, 29, 34, 43] unchanged from the start position, since all four keys tie |
| Opening.InitialPosition | othello.py:4-18 | for the position inicializa returns: moves [20, 29, 34, 43], score 3 after move 20, and the orderer keeps the four moves in order |

## Left out

- The program entry point and its console game loop (othello.py:103-133) are not modelled. They are input and output.
- The base class `ModeloJuegoZT2` and the search driver that calls the engine come from `juegos_simplificado`, which is not part of this model.
- `make_ordena_othello` (othello.py:90-93) is left out. It only closes over the position, and `Heuristics.OrderMoves` takes the position as a parameter instead.
- Heuristics.Evaluation: it returns ten times `evalua_othello`, with `10 * material + mobility difference` in place of `material + 0.1 * mobility difference`. This keeps the value an exact integer instead of a float. A position strictly better under `Evaluation` is strictly better under `evalua_othello` in exact arithmetic, but float rounding can order two positions whose scaled values tie: material 0 with mobility difference 3 and material 1 with mobility difference -7 both give 3 here, while the float expressions round to slightly different values.
- Engine.CheckDirection, Engine.IsLegalMove and Engine.LegalMoves require a valid board (all cells in {-1, 0, 1}). On a cell holding any other value, the source's `check_direction` loop steps over it, while `Moves.IsLegal` and `Moves.LegalMoves` read each ray the way `flip_direction` does and stop there; that behaviour of `check_direction` is not modelled. No board the program builds is excluded: `Board.Initial` is valid and `Transition.ApplyFrame` proves that a placement keeps a valid board valid.
- Moves are restricted to `[-1, 64)` by the `Move` type. In the source an index of 64 or more, or below -64, raises `IndexError`; an index in [-64, -2] wraps to cell `64 + a` in `place_disk` (othello.py:52), while `divmod` puts the origin of every ray above the board (othello.py:58), so rays pointing down can still flip real cells; `clave` does the same for such a move (othello.py:85). Neither case is modelled: both are caller errors, since such an index is never in a move list.
- The class `Othello` has no fields, so the model has no class. Positions are immutable sequences. The working copy that `transicion` mutates is the only array.
- Engine.FlipDirection delegates its two loops to `Engine.CollectRun` and `Engine.TurnOver`. They are the source's collecting loop and its flipping loop, unchanged.
