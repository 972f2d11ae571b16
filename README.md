# Sudoku `GameState`, modelled and verified in Dafny

This project models the engine of a small Sudoku solver written in Python.
The engine is the class `GameState` in `gamestate.py`. It has five parts:

- **Generation.** `generate` builds a solved grid from a base pattern. It
  shuffles bands, rows, stacks, columns and digits, then zeroes a random
  set of cells.
- **Candidates.** A 9×9×9 cube `_adj` records which digits are still
  possible in each cell. `apply(i, j, k)` commits digit `k + 1` and clears
  the candidates it rules out. `do_init` applies every given.
- **Deduction.** `do_move` commits the first naked single or hidden single,
  searching rows, then columns, then blocks, in a fixed scan order.
- **Queries.** `is_valid` and `is_done` inspect the grid.
- **Driver.** `animate` is the generator that drives a session. It shows
  the puzzle, seeds the candidates, then moves until it is stuck or solved.

The Dafny modules follow that structure:

| file | module | what it holds |
|---|---|---|
| `wrappers.dfy` | `Wrappers` | the `Option` type |
| `counting.dfy` | `Counting` | occurrence counts, permutations, the pigeonhole fact, first true entry of a 0/1 vector |
| `sudoku.dfy` | `Sudoku` | grid geometry, `block`/`block_from`, `is_valid`, `is_done` and the rule of Sudoku |
| `generator.dfy` | `Generator` | `generate`, with the random draws as inputs |
| `rules.dfy` | `Rules` | `apply`, `do_init` and `do_move` as functions on values, and what they achieve |
| `gamestate.dfy` | `Game` | the class `GameState` over `array2`/`array3`, each method proved equal to its `Rules` function |
| `driver.dfy` | `Driver` | `animate` as a state machine (`Step`), the class `Animation` that drives a live `GameState`, and termination |

The main results are:

- **`generate`.**
  - It returns a grid exactly when `p_init < 1`, and otherwise raises one of the two exceptions the code raises (`GenerateFailure`, `Generate`).
  - The full grid is always a solved Sudoku, whatever the draws (`SolutionIsDone`).
  - Exactly `n_init` hints remain (`PuzzleHintCount`).
  - The givens never conflict (`PuzzleHasNoConflicts`).
- **`is_done`.** It holds exactly for a full grid in which no digit repeats in any row, column or block (`IsDoneIff`).
- **`is_valid`.** It holds exactly when no peer of the cell holds the value (`IsValidIff`).
- **`apply`.**
  - It fails, and changes nothing, exactly when `k + 1` is not a candidate.
  - On success it sets the cell and clears exactly the source's four slices (`Apply`, `ApplyEffect`).
  - It keeps the session consistent (`ApplyKeepsConsistent`).
- **`do_init`.** On givens that obey the rule, it leaves exactly the digits `is_valid` accepts at empty cells (`SeedFromGivens`).
- **`do_move`.**
  - It acts on the first match in the source's priority and scan order (`NextMoveSpec`).
  - That move is forced (`HitIsForced`).
  - It fills one empty cell and keeps the state consistent (`DeduceFillsOneCell`, `DeduceKeepsConsistent`).
- **`animate`.**
  - "Done!" is shown only for a solved grid, and "I'm stuck!" only when no single is left (`StepMeaning`).
  - A session on a generated puzzle stops within `n_remove + 1` resumptions after seeding, with a grid that breaks no rule (`GeneratedSessionStops`).

Integers are unbounded. No quantity in the engine comes near a machine
limit: grid digits are 0..9 and cell numbers are 0..80.

### Where the model follows the code rather than its description

- **`p_init = 1`.** `generate` cannot keep every cell (see Findings).
  - With `n_remove == 0` the sample of cells is empty, the index array
    built from it is one-dimensional, and `indices[:, 0]` raises
    `IndexError` (`gamestate.py:46-48`).
  - So `GameState(1.0)` never finishes building, and `Generate` and
    `NewGameState` return that error.
  - A description of the engine in which `p_init = 1` gives a solved
    puzzle describes the evidently intended behaviour. `Puzzle` is defined
    that way for every draw, and `NothingRemovedIsSolved` proves it.
- **`is_done` after `do_init`.** The code consults `is_done` only after a
  successful move, at the resumption that follows its frame
  (`gamestate.py:265-279`). It does not consult it right after `do_init`.
  - A generated grid with at least one cell removed is never full after
    seeding, so as written this makes no difference.
  - With the crash above corrected, a full puzzle would produce the frames
    "puzzle", "seeded", "I'm stuck!" although its grid is solved
    (`FullPuzzleEndsStuck`).
- **The termination bound.** The model proves the bound the code actually
  has: at most 82 resumptions inside the move loop, that is 81 moves plus
  the final caption (`MovesProgress`).
- **`is_valid(i, j, k)`.** It compares the grid with `k` itself, while
  `apply(i, j, k)` commits `k + 1` (`gamestate.py:66-77`, `133-154`).
  - The model keeps `IsValid` as written. Callers pass a digit, as in
    `IsValid(G, a, b, c + 1)`.
  - Nothing in the source calls `is_valid`, so no wrong result follows
    from the mismatch.

## Model

| member | source | states |
|---|---|---|
| Counting.FirstTrue | gamestate.py:172 | `np.where(v == 1)[0][0]`: the result indexes a true entry, and every earlier entry is false |
| Counting.SingleTrue | gamestate.py:171-172 | a 0/1 vector summing to 1 has a first true entry, and all other entries are false |
| Counting.Pigeonhole | gamestate.py:231-250 | nine distinct values from 1..9 take every value of 1..9 |
| Sudoku.CellNumber | gamestate.py:47 | `(idx // 9, idx % 9)` names cell (i, j) exactly when idx == 9 * i + j |
| Sudoku.BlockCell | gamestate.py:198-204 | the mapping `i = (m // 3) * 3 + n // 3`, `j = (m % 3) * 3 + n % 3` gives a cell of block m, at position n in it |
| Sudoku.CellInBlock | gamestate.py:198-204 | every cell is reached by that mapping, from its own block and position |
| Sudoku.SameBlockIff | gamestate.py:60-64 | a cell lies in the slice `block_from(A, i, j)` exactly when it has the same block number as (i, j); the relation is symmetric |
| Sudoku.Block | gamestate.py:54-58 | `block(G, m).reshape(-1)`, nine entries read row by row |
| Sudoku.BlockAround | gamestate.py:60-64 | `block_from(G, i, j).reshape(-1)`, nine entries |
| Sudoku.BlockAroundIsBlock | gamestate.py:54-64 | `block_from(G, i, j)` and `block(G, m)` for the block m of (i, j) read the same cells in the same order |
| Sudoku.Row | gamestate.py:70 | `G[i, :]`, nine entries |
| Sudoku.Column | gamestate.py:71 | `G[:, j]`, nine entries |
| Sudoku.IsValid | gamestate.py:66-77 | `is_valid(i, j, k)` as written: k is in none of the row, the column and the block around (i, j); its meaning is stated by `IsValidIff` |
| Sudoku.IsValidIff | gamestate.py:66-77 | `is_valid(i, j, v)` holds exactly when no cell in the row, column or block of (i, j) holds v |
| Sudoku.EachDigitOnce | gamestate.py:231-250 | a scope whose nine values are distinct digits counts each digit exactly once |
| Sudoku.RowIsPermutation | gamestate.py:232-236 | in a full grid that obeys the rule, every row is a permutation of 1..9 |
| Sudoku.ColumnIsPermutation | gamestate.py:239-243 | the same for every column |
| Sudoku.BlockIsPermutation | gamestate.py:246-250 | the same for every block |
| Sudoku.IsDoneIff | gamestate.py:224-252 | `is_done()` holds iff no cell is 0 and no two cells of a row, column or block hold the same digit (both directions) |
| Sudoku.IsDone | gamestate.py:224-252 | `is_done()`: no cell is 0, and each digit counts once in every row, column and block; its meaning is stated by `IsDoneIff` |
| Sudoku.EmptyBelow | gamestate.py:228 | the number of empty cells among the first t is at most t |
| Sudoku.EmptyCount | gamestate.py:228 | a grid has at most 81 empty cells |
| Sudoku.NoEmptyIsFilled | gamestate.py:228 | `np.any(G == 0)` is false exactly when every cell holds a digit |
| Sudoku.SetCell | gamestate.py:151 | `G[i, j] = v` sets that cell to v and leaves every other cell alone |
| Sudoku.SetCellSame | gamestate.py:161-162 | writing a given's own digit back leaves the grid unchanged |
| Sudoku.FillOne | gamestate.py:151 | writing a digit into an empty cell leaves exactly one empty cell fewer |
| Generator.Pattern | gamestate.py:27 | `pattern(i, j)`; its injectivity along rows, columns and blocks is stated by the three lemmas below |
| Generator.HintCount | gamestate.py:40 | `n_init = int(81 * p_init)` is the largest n with n <= 81 * p_init |
| Generator.HintCountAtLeast | gamestate.py:40 | `n_init` reaches m exactly when 81 * p_init does |
| Generator.GenerateFailure | gamestate.py:40-48 | `generate` raises nothing exactly when p_init < 1; it raises `ValueError` exactly when 81 * p_init >= 82, and `IndexError` otherwise |
| Generator.FullProportionRaises | gamestate.py:46-48 | for p_init = 1, `n_init` is 81 and `generate` raises `IndexError` instead of returning the full grid |
| Generator.Solution | gamestate.py:37 | the full grid `nums[pattern(rows[r], cols[c])]`; its properties are stated by `SolutionDigits` and `SolutionIsDone` |
| Generator.Puzzle | gamestate.py:46-50 | the full grid with the drawn cells set to 0; its properties are stated by `PuzzleCell`, `PuzzleHintCount` and `PuzzleHasNoConflicts` |
| Generator.Lines | gamestate.py:32-33 | `rows`/`cols` has nine entries |
| Generator.LinesArePermutation | gamestate.py:32-33 | `rows` (and `cols`) is a permutation of 0..8; line t lies in band `order[t // 3]` at offset `within[t // 3][t % 3]` |
| Generator.PatternAlongRow | gamestate.py:27 | `pattern(i, j)` differs for different j in the same row |
| Generator.PatternAlongColumn | gamestate.py:27 | `pattern(i, j)` differs for different i in the same column |
| Generator.PatternInsideBlock | gamestate.py:27 | `pattern` differs for different cells of the same 3×3 block |
| Generator.SolutionDigits | gamestate.py:34-37 | every cell of the full grid holds a digit 1..9 |
| Generator.SolutionHasNoConflicts | gamestate.py:27-37 | no digit repeats in any row, column or block of the full grid |
| Generator.SolutionIsDone | gamestate.py:27-37 | the full grid satisfies `is_done`, whatever the shuffles |
| Generator.Generate | gamestate.py:22-52 | raises exactly what `GenerateFailure` names; otherwise returns a fresh 9×9 array equal to the puzzle, and warns exactly when `n_init < 17` |
| Generator.PuzzleCell | gamestate.py:46-50 | cell idx of the puzzle is empty exactly when idx was drawn |
| Generator.NothingRemovedIsSolved | gamestate.py:37-50 | with nothing removed the puzzle is the full grid, which `is_done` accepts |
| Generator.RemovedBelowStep | gamestate.py:46-50 | the drawn indices below t are those below t - 1, plus t - 1 if drawn |
| Generator.EmptyBelowIsRemoved | gamestate.py:46-50 | the empty cells among the first t are exactly as many as the drawn indices below t |
| Generator.PuzzleHintCount | gamestate.py:40-50 | for `n_init <= 81`, exactly `n_remove` cells are empty and exactly `n_init = int(81 * p_init)` hold a digit |
| Generator.PuzzleHasNoConflicts | gamestate.py:37-50 | the givens obey the rule of Sudoku and each is the full grid's digit |
| Rules.AllCandidates | gamestate.py:20 | `np.ones((9, 9, 9))`: every entry set |
| Rules.Clears | gamestate.py:143-148 | the entries `apply(i, j, k)` sets to 0: all of `A[i, j, :]`, and entry k of every cell in row i, column j and the block of (i, j) |
| Rules.ClearCube | gamestate.py:143-148 | an entry is cleared exactly when it is in `A[i, j, :]`, `A[i, :, k]`, `A[:, j, k]` or `block_from(A, i, j)[:, :, k]`; all others are unchanged |
| Rules.Apply | gamestate.py:133-154 | succeeds exactly when `A[i, j, k]` is set; on failure the state is unchanged |
| Rules.ApplyEffect | gamestate.py:133-154 | after success `G[i, j] == k + 1`, the cell has no candidates, and no peer has candidate k; only the named entries are cleared, and no other cell changes |
| Rules.PeersSymmetric | gamestate.py:69-72 | sharing a row, column or block is symmetric |
| Rules.ApplyKeepsNoCandidatesOnFilled | gamestate.py:143-151 | `apply` keeps committed cells free of candidates |
| Rules.FillKeepsNoConflicts | gamestate.py:66-77 | writing a digit that `is_valid` accepts into an empty cell keeps the rule of Sudoku |
| Rules.ApplyKeepsCandidatesValid | gamestate.py:143-151 | after `apply` every remaining candidate is still a digit `is_valid` accepts |
| Rules.ApplyKeepsConsistent | gamestate.py:133-154 | a successful `apply` on a consistent state fills an empty cell, leaves one empty cell fewer, and keeps the state consistent |
| Rules.SeedCell | gamestate.py:160-162 | one pass of `do_init`'s loop body leaves the grid as it is |
| Rules.Seed | gamestate.py:156-162 | `do_init` after t cells leaves the grid as it is |
| Rules.SeedOnlyClears | gamestate.py:156-162 | `do_init` never sets a candidate |
| Rules.GivenSurvives | gamestate.py:159-162 | on givens that obey the rule, no earlier given clears the digit of a later given, so every `apply` of `do_init` succeeds |
| Rules.SeedCellEntries | gamestate.py:160-162 | a step whose given is still a candidate clears exactly the entries that given rules out |
| Rules.SeedCellStep | gamestate.py:160-162 | such a step keeps the candidates equal to "no given so far clears it" |
| Rules.SeedCellSound | gamestate.py:159-162 | on givens that obey the rule, every step keeps that correspondence |
| Rules.SeedClears | gamestate.py:156-162 | after t cells, a candidate survives exactly when none of the first t givens clears it |
| Rules.SurvivorIsFree | gamestate.py:66-77 | a candidate no given clears is at an empty cell, and no peer holds its digit |
| Rules.KilledIsTaken | gamestate.py:66-77 | a candidate some given clears is at a filled cell, or a peer holds its digit |
| Rules.SurvivorsAreValid | gamestate.py:66-77 | surviving `do_init` is equivalent to: the cell is empty and `is_valid` accepts the digit |
| Rules.SeedFromGivens | gamestate.py:156-162 | `do_init` on a fresh cube and conflict-free givens leaves digit c + 1 possible at (a, b) iff the cell is empty and `is_valid` accepts it; the state is consistent |
| Rules.Slice | gamestate.py:171-201 | each rule sums a nine-entry slice of the cube |
| Rules.HasSingle | gamestate.py:171-201 | the test `.sum() == 1` on a rule's slice at lines 171, 181, 191 and 201 |
| Rules.MoveAt | gamestate.py:172-205 | the move a rule makes from the index of the single true entry is a valid cell and digit |
| Rules.SliceEntry | gamestate.py:171-204 | entry n of the slice is the candidate of the move made from n |
| Rules.HitAt | gamestate.py:171-205 | where a slice sums to 1, the move is read off its first true entry and is a candidate |
| Rules.EveryRule | gamestate.py:164-206 | the four rules are tried in the order naked, row, column, block |
| Rules.ScanFromSpec | gamestate.py:169-174 | a scan finds nothing iff nothing matches from its start, and otherwise the first match |
| Rules.FirstHit | gamestate.py:169-206 | a rule's match names a valid cell and digit |
| Rules.FirstHitSpec | gamestate.py:169-206 | one rule's double loop finds nothing iff the rule matches nowhere, and otherwise its first match in scan order |
| Rules.NextMove | gamestate.py:164-206 | the match `do_move` acts on names a valid cell and digit |
| Rules.NextMoveSpec | gamestate.py:164-222 | `do_move` finds nothing iff no rule matches anywhere; otherwise the first match in priority and scan order, whose move is a candidate |
| Rules.HitIsForced | gamestate.py:167-206 | a naked single is its cell's only candidate; a hidden single is the only place in its row, column or block for its digit |
| Rules.Deduce | gamestate.py:164-222 | `do_move()` returns true exactly when some rule matches; when false, nothing changes |
| Rules.DeduceOnlyClears | gamestate.py:164-222 | `do_move` never sets a candidate |
| Rules.DeduceFillsOneCell | gamestate.py:164-206 | a successful move writes its digit into an empty cell and nothing else into the grid, leaving one empty cell fewer |
| Rules.DeduceKeepsConsistent | gamestate.py:164-206 | `do_move` keeps a consistent state consistent |
| Rules.FullGridHasNoMove | gamestate.py:164-222 | on a full grid with no candidates on committed cells no rule matches, so `do_move` returns false |
| Game.GameState.Grid | gamestate.py:17 | `_grid` read as a value, cell by cell |
| Game.GameState.Cube | gamestate.py:20 | `_adj` read as a value, entry by entry |
| Game.GameState.constructor | gamestate.py:17-20 | `_grid` is the grid `generate` returned and `_adj` is all ones |
| Game.GameState.Apply | gamestate.py:133-154 | the in-place update returns and leaves exactly what `Rules.Apply` says |
| Game.GameState.InitCell | gamestate.py:160-162 | the loop body at (i, j) performs `Rules.SeedCell` for cell 9 * i + j |
| Game.GameState.InitRow | gamestate.py:159-162 | the inner loop over row i advances `do_init` by nine cells |
| Game.GameState.DoInit | gamestate.py:156-162 | the double loop leaves exactly `Rules.Seed(old state, 81)` |
| Game.GameState.DoMove | gamestate.py:164-222 | the in-place move returns and leaves exactly what `Rules.Deduce` says |
| Game.NewGameState | gamestate.py:9-20 | `GameState(p_init)` raises what `generate` raises; otherwise it yields a fresh game whose grid is the puzzle and whose cube is all ones |
| Game.FindMove | gamestate.py:164-206 | the four searches in order find exactly `Rules.NextMove` |
| Game.FindSingle | gamestate.py:169-206 | one search's double loop finds exactly `Rules.FirstHit` |
| Driver.Attempt | gamestate.py:265-274 | one pass of the loop body leaves a well-formed session |
| Driver.Step | gamestate.py:254-279 | one resumption leaves a well-formed session |
| Driver.Run | gamestate.py:254-279 | n resumptions leave a well-formed session |
| Driver.Outputs | gamestate.py:254-279 | n resumptions produce n outputs |
| Driver.StepMeaning | gamestate.py:254-279 | "Done!" only for a grid `is_done` accepts; "I'm stuck!" only in the move loop when no single is left; exhaustion iff stopped; a move changes the state by `apply` of the first match |
| Driver.StepOnlyClears | gamestate.py:254-279 | a resumption never sets a candidate |
| Driver.RunOnlyClears | gamestate.py:254-279 | along a whole run every candidate set at the end was set at the start |
| Driver.StoppedStays | gamestate.py:273-279 | a stopped session stays as it is |
| Driver.StoppedIsExhausted | gamestate.py:273-279 | every further resumption of a stopped session finds the generator exhausted |
| Driver.LoopStep | gamestate.py:265-279 | each resumption in the loop stops the session or fills one empty cell, keeping committed cells free of candidates |
| Driver.MovesProgress | gamestate.py:265-279 | from the loop the session stops within (empty cells + 1) resumptions, hence within 82 |
| Driver.Start | gamestate.py:9-20 | a new session on the puzzle and a full cube, not started; it is defined for every draw, including the empty removal that `generate` should allow |
| Driver.StepKeepsSound | gamestate.py:254-279 | every resumption keeps the session consistent: a full cube and conflict-free givens before `do_init`, `Consistent` after |
| Driver.RunKeeps | gamestate.py:254-279 | a property every resumption keeps holds along a whole run |
| Driver.RunKeepsSound | gamestate.py:254-279 | every session reachable from a sound one is sound |
| Driver.StartSeeds | gamestate.py:254-262 | the two opening resumptions on a generated puzzle leave a consistent seeded state on the same grid |
| Driver.GeneratedSessionStops | gamestate.py:254-279 | for `n_init <= 81`, a generated puzzle's session stops within `n_remove + 1` resumptions after seeding, with a grid that breaks no rule |
| Driver.FullGridIsStuck | gamestate.py:265-274 | right after `do_init` on a full grid the first move fails, and the generator says "I'm stuck!" and stops |
| Driver.FullPuzzleEndsStuck | gamestate.py:259-274 | on the puzzle with nothing removed, which only the corrected `generate` returns, the grid is solved, yet the outputs are two frames, "I'm stuck!", then exhaustion |
| Driver.Animation.constructor | gamestate.py:254 | calling `animate()` runs nothing until the first resumption |
| Driver.Animation.Next | gamestate.py:254-279 | one `next()` on the live game produces and leaves exactly what `Step` says |
| Driver.Animation.Play | gamestate.py:265-274 | one pass of the loop body on the live game produces and leaves exactly what `Attempt` says |

## Findings

| source | as written | input that shows it | evidently intended | confidence | as-written member | corrected member |
|---|---|---|---|---|---|---|
| gamestate.py:46-48 | when `n_remove == 0` the empty sample becomes a one-dimensional array, and `indices[:, 0]` raises `IndexError`, so `GameState(p_init)` fails | `p_init = 1.0` (`n_init = 81`, `n_remove = 0`) | nothing is removed and the full, solved grid is the puzzle | high (NumPy indexing semantics), not executed | Generator.FullProportionRaises | Generator.NothingRemovedIsSolved |

`Generate` and `Game.NewGameState` model the code as written and return
the error. `Generator.Puzzle`, on which `Driver.Start` and the session
lemmas are built, is the corrected definition: with nothing removed it is
the full grid.

## Left out

- `sudoku.py`, the command-line entry point that builds the animation and saves the video, is not part of this model.
- The figure and drawing are not modelled: `_fig`, `_ax` and `_frames` (`gamestate.py:10-14`) and `render` (`gamestate.py:86-131`). Frames carry only their caption, and the node-update list that `animate` yields is always empty, so it is dropped.
- The console messages at `gamestate.py:44`, `139` and `272` are not modelled. The warning at line 44 becomes the `tooFewHints` result of `Generator.Generate`. The other two are dropped.
- `is_closed_set` (`gamestate.py:79-84`) has no caller. It also belongs to the closed-set rule that `do_move` leaves as `pass`, so it is not modelled.
- The three rules `do_move` leaves as `pass` (`gamestate.py:208-220`) are modelled as doing nothing.
- `random.sample` is not modelled. Its results are the inputs of `Generator.Draws`, constrained by `IsShuffled` and `ValidDraws` to what it can return.
- Generator.HintCount: `p_init` is a float in the source. The model uses an exact ratio `num / den` and computes `int(81 * p_init)` as floor division, so floating-point rounding of `81 * p_init` is not modelled.
- The cube `_adj` holds `np.int` 0/1 values in the source and `bool` in the model. A 0/1 vector's `.sum()` is modelled as the number of its true entries.
- Game.GameState.Apply: the four slice assignments of `apply` write the same value, so they are modelled as one simultaneous assignment. The order of the four writes is not observable.
- Game.GameState.DoMove: the searches read a value copy of `_adj` taken before the move. The source also reads `_adj` before any write, so nothing is lost.
- Driver.Step: the Python generator is modelled as a state machine whose phase records which `yield` it is suspended at. Exceptions and closing the generator early are not modelled.
- Driver.GeneratedSessionStops: the bound is stated from the seeded session, which is two resumptions after `animate()` starts. It is given as `n_remove + 1` resumptions, not as a count of successful steps.
- Game.GameState.constructor: it models the end of `__init__` (`gamestate.py:17-20`) and takes the grid `generate` returned. `Game.NewGameState` models the whole of `__init__`, including the exceptions.
- A negative `p_init` is not modelled, because `Generator.Ratio` has natural components. With a negative `p_init`, `int` truncates toward zero and `random.sample` raises `ValueError` once `n_remove > 81`.
- The model assumes a NumPy in which `np.int` exists as an alias of `int` (`gamestate.py:20`, `47`). Later NumPy releases removed the alias, so those lines would raise `AttributeError` there.
