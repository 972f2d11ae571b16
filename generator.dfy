/** `GameState.generate`: a full grid from the base pattern with shuffled
    bands, rows, stacks, columns and digits, then a set of cells zeroed.
    The random draws are inputs (`Draws`), so what remains is index
    arithmetic and one in-place update of the new grid. */
module Generator {
  import opened Wrappers
  import opened Counting
  import opened Sudoku

  /** `p_init`, the proportion of hints, as an exact ratio num / den. */
  datatype Ratio = Ratio(num: nat, den: nat)

  /** `n_init = int(side * side * p_init)`; `int` truncates, which for a
      non-negative proportion is the floor: the largest n with
      n <= 81 * p_init. */
  function HintCount(p: Ratio): (n: nat)
    requires p.den > 0
    ensures n * p.den <= 81 * p.num < (n + 1) * p.den
  {
    (81 * p.num) / p.den
  }

  /** Multiplying by a non-negative factor keeps an inequality. */
  lemma MulLe(a: int, b: int, c: nat)
    requires a <= b
    ensures a * c <= b * c
  {
    assert b * c == a * c + (b - a) * c;
  }

  /** `n_init` reaches m exactly when 81 * p_init does. */
  lemma HintCountAtLeast(p: Ratio, m: nat)
    requires p.den > 0
    ensures HintCount(p) >= m <==> 81 * p.num >= m * p.den
  {
    var n := HintCount(p);
    if n >= m {
      MulLe(m, n, p.den);
    } else {
      MulLe(n + 1, m, p.den);
    }
  }

  /** The exceptions `generate` raises: `random.sample` refuses a sample
      larger than the population of 81 cells (`ValueError`, line 46), and an
      empty sample gives a one-dimensional index array that `indices[:, 0]`
      cannot index (`IndexError`, line 48). */
  datatype GenError = SampleLargerThanPopulation | TooManyIndices

  /** The exception `generate(p_init)` raises, if any. It succeeds exactly
      for a proportion below 1; from 82/81 on the sample is too large, and
      in between (1 included) no cell is drawn and the indexing fails. */
  function GenerateFailure(p: Ratio): (r: Option<GenError>)
    requires p.den > 0
    ensures r.None? <==> p.num < p.den
    ensures r == Some(SampleLargerThanPopulation) <==> 81 * p.num >= 82 * p.den
  {
    HintCountAtLeast(p, 81);
    HintCountAtLeast(p, 82);
    var nRemove := 81 - HintCount(p);
    if nRemove < 0 then Some(SampleLargerThanPopulation)
    else if nRemove == 0 then Some(TooManyIndices)
    else None
  }

  /** With `p_init = 1` no cell is drawn for removal, and `generate` raises
      instead of returning the full grid. */
  lemma FullProportionRaises(p: Ratio)
    requires p.den > 0 && p.num == p.den
    ensures HintCount(p) == 81 && GenerateFailure(p) == Some(TooManyIndices)
  {
    HintCountAtLeast(p, 81);
    HintCountAtLeast(p, 82);
  }

  /** What `generate` draws at random. Rows are built as
      `[m * 3 + i for m in shuffle(r_base) for i in shuffle(r_base)]`, whose
      inner shuffle is drawn again for every band, so each band (and each
      stack) has its own order of rows (columns). */
  datatype Draws = Draws(
    bands: seq<int>,
    rowsInBand: seq<seq<int>>,
    stacks: seq<int>,
    colsInStack: seq<seq<int>>,
    nums: seq<int>,
    removed: seq<int>)

  /** An order of the three bands (stacks) and, per position, an order of
      the three rows (columns) inside it. */
  predicate IsLineShuffle(order: seq<int>, within: seq<seq<int>>)
  {
    IsPermutation(order, 0, 3) && |within| == 3 &&
    forall m :: 0 <= m < 3 ==> IsPermutation(within[m], 0, 3)
  }

  /** Draws `random.sample` can produce: permutations for the shuffles and
      `nums`, and distinct cell indices 0..80 for the removal. */
  predicate IsShuffled(d: Draws)
  {
    IsLineShuffle(d.bands, d.rowsInBand) &&
    IsLineShuffle(d.stacks, d.colsInStack) &&
    IsPermutation(d.nums, 1, 9)
  }

  /** The draws for `generate(p_init)`: when `n_remove = 81 - n_init` is
      not negative, `random.sample(range(81), n_remove)` gives `n_remove`
      distinct cell indices (none when `n_remove` is 0); otherwise it
      raises and draws nothing. */
  predicate ValidDraws(p: Ratio, d: Draws)
  {
    p.den > 0 && IsShuffled(d) &&
    (HintCount(p) <= 81 ==>
      |d.removed| == 81 - HintCount(p) && Distinct(d.removed) &&
      forall t :: 0 <= t < |d.removed| ==> 0 <= d.removed[t] < 81)
  }

  /** `pattern(i, j)` */
  function Pattern(i: int, j: int): int
  {
    (i / 3 + (i % 3) * 3 + j) % 9
  }

  /** `rows` (or `cols`): line t of the grid is line `within[t / 3][t % 3]`
      of band `order[t / 3]`. */
  function Lines(order: seq<int>, within: seq<seq<int>>): (r: seq<int>)
    requires IsLineShuffle(order, within)
    ensures |r| == 9
  {
    seq(9, t requires 0 <= t < 9 => order[t / 3] * 3 + within[t / 3][t % 3])
  }

  /** The full grid `[[nums[pattern(i, j)] for j in cols] for i in rows]`. */
  function Solution(d: Draws): Grid
    requires IsShuffled(d)
  {
    var rows := Lines(d.bands, d.rowsInBand);
    var cols := Lines(d.stacks, d.colsInStack);
    seq(9, r requires 0 <= r < 9 => seq(9, c requires 0 <= c < 9 => d.nums[Pattern(rows[r], cols[c])]))
  }

  /** The puzzle: the full grid with the drawn cells `(idx // 9, idx % 9)`
      set to 0. */
  function Puzzle(d: Draws): Grid
    requires IsShuffled(d)
  {
    var S := Solution(d);
    seq(9, i requires 0 <= i < 9 => seq(9, j requires 0 <= j < 9 => if 9 * i + j in d.removed then 0 else S[i][j]))
  }

  /** A cell of the puzzle, read off the full grid and the removal. */
  lemma PuzzleAt(d: Draws, i: int, j: int)
    requires IsShuffled(d) && IsIndex(i) && IsIndex(j)
    ensures IsGrid(Solution(d)) && IsGrid(Puzzle(d))
    ensures Puzzle(d)[i][j] == if 9 * i + j in d.removed then 0 else Solution(d)[i][j]
  {
    SolutionDigits(d);
  }

  /** What `generate` ends with: the new grid and whether it warned about
      too few hints, or the exception it raised. */
  datatype Generated = Built(grid: array2<int>, tooFewHints: bool) | Raised(error: GenError)

  /** `generate(p_init)`: builds the full grid, warns when fewer than 17
      hints will remain, draws the cells to remove and zeroes them in place
      (`G[indices] = 0`), or raises. */
  method Generate(p: Ratio, d: Draws) returns (r: Generated)
    requires ValidDraws(p, d)
    ensures GenerateFailure(p).Some? ==> r == Raised(GenerateFailure(p).value)
    ensures GenerateFailure(p).None? ==>
      r.Built? && fresh(r.grid) && r.grid.Length0 == 9 && r.grid.Length1 == 9 &&
      (forall i, j :: 0 <= i < 9 && 0 <= j < 9 ==> r.grid[i, j] == Puzzle(d)[i][j]) &&
      (r.tooFewHints <==> HintCount(p) < 17)
  {
    var S := Solution(d);
    SolutionDigits(d);
    var G := new int[9, 9]((i, j) requires 0 <= i < 9 && 0 <= j < 9 => S[i][j]);
    var nInit := HintCount(p);
    var nRemove := 81 - nInit;
    var tooFewHints := nInit < 17;
    if nRemove < 0 {
      return Raised(SampleLargerThanPopulation);
    }
    if nRemove == 0 {
      return Raised(TooManyIndices);
    }
    forall t | 0 <= t < |d.removed| {
      G[d.removed[t] / 9, d.removed[t] % 9] := 0;
    }
    forall i, j | 0 <= i < 9 && 0 <= j < 9
      ensures G[i, j] == Puzzle(d)[i][j]
    {
      PuzzleAt(d, i, j);
      forall t | 0 <= t < |d.removed|
        ensures d.removed[t] / 9 == i && d.removed[t] % 9 == j <==> d.removed[t] == 9 * i + j
      {
        CellNumber(i, j, d.removed[t]);
      }
    }
    r := Built(G, tooFewHints);
  }

  // ---------------------------------------------------------------------
  // The full grid obeys the rule of Sudoku

  /** Line t sits in band `order[t / 3]` at offset `within[t / 3][t % 3]`, and
      different t give different lines. */
  lemma LinesArePermutation(order: seq<int>, within: seq<seq<int>>)
    requires IsLineShuffle(order, within)
    ensures IsPermutation(Lines(order, within), 0, 9)
    ensures forall t :: 0 <= t < 9 ==>
      Lines(order, within)[t] / 3 == order[t / 3] && Lines(order, within)[t] % 3 == within[t / 3][t % 3]
  {
    var L := Lines(order, within);
    forall t, u | 0 <= t < 9 && 0 <= u < 9 && t != u ensures L[t] != L[u] {
      if t / 3 != u / 3 {
        assert order[t / 3] != order[u / 3];
      } else {
        assert within[t / 3][t % 3] != within[t / 3][u % 3];
      }
    }
  }

  /** Splits an index into its band (or stack) and its offset there. */
  lemma Split(x: int)
    requires IsIndex(x)
    ensures x == 3 * (x / 3) + x % 3 && 0 <= x / 3 < 3 && 0 <= x % 3 < 3
  {
  }

  /** Two values below 18 with the same remainder mod 9 differ by 0 or 9. */
  lemma SameRemainder(v1: int, v2: int)
    requires 0 <= v1 < 18 && 0 <= v2 < 18 && v1 % 9 == v2 % 9
    ensures v1 == v2 || v1 == v2 + 9 || v2 == v1 + 9
  {
    assert v1 % 9 == if v1 < 9 then v1 else v1 - 9;
    assert v2 % 9 == if v2 < 9 then v2 else v2 - 9;
  }

  /** Along a row of the pattern the values differ. */
  lemma PatternAlongRow(x: int, y1: int, y2: int)
    requires IsIndex(x) && IsIndex(y1) && IsIndex(y2) && y1 != y2
    ensures Pattern(x, y1) != Pattern(x, y2)
  {
    Split(x);
    var c := x / 3 + (x % 3) * 3;
    if Pattern(x, y1) == Pattern(x, y2) {
      SameRemainder(c + y1, c + y2);
    }
  }

  /** Along a column of the pattern the values differ: i ↦ i / 3 + (i % 3) * 3
      is one-to-one on 0..8. */
  lemma PatternAlongColumn(x1: int, x2: int, y: int)
    requires IsIndex(x1) && IsIndex(x2) && IsIndex(y) && x1 != x2
    ensures Pattern(x1, y) != Pattern(x2, y)
  {
    Split(x1);
    Split(x2);
    var c1 := x1 / 3 + (x1 % 3) * 3;
    var c2 := x2 / 3 + (x2 % 3) * 3;
    if Pattern(x1, y) == Pattern(x2, y) {
      SameRemainder(c1 + y, c2 + y);
    }
  }

  /** Inside a block of the pattern the values differ. */
  lemma PatternInsideBlock(x1: int, y1: int, x2: int, y2: int)
    requires IsIndex(x1) && IsIndex(y1) && IsIndex(x2) && IsIndex(y2)
    requires x1 / 3 == x2 / 3 && y1 / 3 == y2 / 3 && (x1, y1) != (x2, y2)
    ensures Pattern(x1, y1) != Pattern(x2, y2)
  {
    Split(x1);
    Split(x2);
    Split(y1);
    Split(y2);
    if Pattern(x1, y1) == Pattern(x2, y2) {
      SameRemainder(x1 / 3 + (x1 % 3) * 3 + y1, x2 / 3 + (x2 % 3) * 3 + y2);
    }
  }

  /** Every cell of the full grid holds a digit 1..9. */
  lemma SolutionDigits(d: Draws)
    requires IsShuffled(d)
    ensures IsGrid(Solution(d)) && Filled(Solution(d))
    ensures forall i, j :: IsIndex(i) && IsIndex(j) ==> 1 <= Solution(d)[i][j] <= 9
  {
  }

  /** The full grid obeys the rule of Sudoku. */
  lemma SolutionHasNoConflicts(d: Draws)
    requires IsShuffled(d)
    ensures IsGrid(Solution(d)) && NoConflicts(Solution(d))
  {
    var S := Solution(d);
    var rows := Lines(d.bands, d.rowsInBand);
    var cols := Lines(d.stacks, d.colsInStack);
    SolutionDigits(d);
    LinesArePermutation(d.bands, d.rowsInBand);
    LinesArePermutation(d.stacks, d.colsInStack);
    forall i, j, a, b |
      IsIndex(i) && IsIndex(j) && IsIndex(a) && IsIndex(b) &&
      Peers(i, j, a, b) && (i, j) != (a, b) && S[i][j] != 0
      ensures S[i][j] != S[a][b]
    {
      assert S[i][j] == d.nums[Pattern(rows[i], cols[j])];
      assert S[a][b] == d.nums[Pattern(rows[a], cols[b])];
      if a == i {
        PatternAlongRow(rows[i], cols[j], cols[b]);
      } else if b == j {
        PatternAlongColumn(rows[i], rows[a], cols[j]);
      } else {
        assert i / 3 == a / 3 && j / 3 == b / 3;
        PatternInsideBlock(rows[i], cols[j], rows[a], cols[b]);
      }
    }
  }

  /** The full grid is a solved Sudoku, whatever the draws: every row, column
      and block holds each digit 1..9 exactly once. */
  lemma SolutionIsDone(d: Draws)
    requires IsShuffled(d)
    ensures IsGrid(Solution(d)) && IsDone(Solution(d))
  {
    SolutionDigits(d);
    SolutionHasNoConflicts(d);
    IsDoneIff(Solution(d));
  }

  // ---------------------------------------------------------------------
  // Removal

  /** Cell u (row-major) of the puzzle is empty exactly when u was drawn for
      removal. */
  lemma PuzzleCell(d: Draws, u: int)
    requires IsShuffled(d) && 0 <= u < 81
    ensures IsGrid(Puzzle(d))
    ensures Puzzle(d)[u / 9][u % 9] == 0 <==> u in d.removed
  {
    SolutionDigits(d);
    assert 9 * (u / 9) + u % 9 == u;
  }

  /** With nothing removed the puzzle is the full grid, which is solved:
      what `generate(1.0)` is evidently meant to return. */
  lemma NothingRemovedIsSolved(d: Draws)
    requires IsShuffled(d) && d.removed == []
    ensures IsGrid(Puzzle(d)) && Puzzle(d) == Solution(d) && IsDone(Puzzle(d))
  {
    SolutionDigits(d);
    PuzzleAt(d, 0, 0);
    forall i, j | 0 <= i < 9 && 0 <= j < 9 ensures Puzzle(d)[i][j] == Solution(d)[i][j] {
      PuzzleAt(d, i, j);
    }
    GridExt(Puzzle(d), Solution(d));
    SolutionIsDone(d);
  }

  /** The members of R below t are those below t - 1, and t - 1 if it is
      one. */
  lemma RemovedBelowStep(R: set<int>, t: int)
    requires 0 < t
    ensures |set x | x in R && 0 <= x < t| ==
      |set x | x in R && 0 <= x < t - 1| + (if t - 1 in R then 1 else 0)
  {
    var below := set x | x in R && 0 <= x < t - 1;
    if t - 1 in R {
      assert t - 1 !in below;
      assert (set x | x in R && 0 <= x < t) == below + {t - 1};
    } else {
      assert (set x | x in R && 0 <= x < t) == below;
    }
  }

  /** A grid whose empty cells are those numbered in R has, among its first
      t cells, as many empty cells as R has members below t. */
  lemma {:induction false} EmptyBelowIsRemoved(G: Grid, R: set<int>, t: int)
    requires IsGrid(G) && 0 <= t <= 81
    requires forall u :: 0 <= u < 81 ==> (G[u / 9][u % 9] == 0 <==> u in R)
    ensures EmptyBelow(G, t) == |set x | x in R && 0 <= x < t|
  {
    if t == 0 {
      assert (set x | x in R && 0 <= x < t) == {};
    } else {
      EmptyBelowIsRemoved(G, R, t - 1);
      RemovedBelowStep(R, t);
      assert G[(t - 1) / 9][(t - 1) % 9] == 0 <==> t - 1 in R;
    }
  }

  /** After removal exactly `n_init` cells hold a digit: the full grid has no
      zero and the `n_remove` removed indices are distinct. */
  lemma PuzzleHintCount(p: Ratio, d: Draws)
    requires ValidDraws(p, d) && HintCount(p) <= 81
    ensures IsGrid(Puzzle(d))
    ensures EmptyCount(Puzzle(d)) == |d.removed|
    ensures 81 - EmptyCount(Puzzle(d)) == HintCount(p)
  {
    var R := set u | u in d.removed;
    forall u | 0 <= u < 81 ensures Puzzle(d)[u / 9][u % 9] == 0 <==> u in R {
      PuzzleCell(d, u);
    }
    SolutionDigits(d);
    EmptyBelowIsRemoved(Puzzle(d), R, 81);
    DistinctValues(d.removed);
    assert (set u | u in R && 0 <= u < 81) == R;
  }

  /** The givens of the puzzle obey the rule of Sudoku, and every given is the
      digit of the full grid. */
  lemma PuzzleHasNoConflicts(d: Draws)
    requires IsShuffled(d)
    ensures IsGrid(Puzzle(d)) && NoConflicts(Puzzle(d))
    ensures forall i, j :: IsIndex(i) && IsIndex(j) && Puzzle(d)[i][j] != 0 ==> Puzzle(d)[i][j] == Solution(d)[i][j]
  {
    SolutionDigits(d);
    SolutionHasNoConflicts(d);
    var P, S := Puzzle(d), Solution(d);
    assert IsGrid(P);
    forall i, j, a, b |
      IsIndex(i) && IsIndex(j) && IsIndex(a) && IsIndex(b) &&
      Peers(i, j, a, b) && (i, j) != (a, b) && P[i][j] != 0
      ensures P[i][j] != P[a][b]
    {
      assert P[i][j] == S[i][j] != S[a][b];
    }
  }
}
