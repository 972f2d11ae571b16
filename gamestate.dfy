/** The `GameState` object: the grid `_grid` and the candidate cube `_adj`
    as arrays updated in place by `apply`, `do_init` and `do_move`. Each
    method is proved to leave the arrays exactly as the corresponding
    function of the `Rules` module says. */
module Game {
  import opened Wrappers
  import opened Sudoku
  import Generator
  import Rules

  class GameState {
    /** `_grid`: 0 for an empty cell, else the committed digit. */
    const grid: array2<int>
    /** `_adj`: entry [i, j, k] holds when digit k + 1 is still possible at
        cell (i, j). */
    const cand: array3<bool>

    ghost predicate Valid()
      reads this, grid
    {
      grid.Length0 == 9 && grid.Length1 == 9 &&
      cand.Length0 == 9 && cand.Length1 == 9 && cand.Length2 == 9 &&
      forall i, j :: 0 <= i < 9 && 0 <= j < 9 ==> 0 <= grid[i, j] <= 9
    }

    /** The grid as a value. */
    function Grid(): (G: Grid)
      reads this, grid
      requires Valid()
      ensures IsGrid(G)
      ensures forall i, j :: 0 <= i < 9 && 0 <= j < 9 ==> G[i][j] == grid[i, j]
    {
      var g := grid;
      seq(9, i requires 0 <= i < 9 reads g => seq(9, j requires 0 <= j < 9 reads g => g[i, j]))
    }

    /** The candidate cube as a value. */
    function Cube(): (A: Rules.Cube)
      reads this, grid, cand
      requires Valid()
      ensures Rules.IsCube(A)
      ensures forall a, b, c :: 0 <= a < 9 && 0 <= b < 9 && 0 <= c < 9 ==> A[a][b][c] == cand[a, b, c]
    {
      var x := cand;
      seq(9, a requires 0 <= a < 9 reads x =>
        seq(9, b requires 0 <= b < 9 reads x =>
          seq(9, c requires 0 <= c < 9 reads x => x[a, b, c])))
    }

    /** The whole session state as a value. */
    function State(): (s: Rules.State)
      reads this, grid, cand
      requires Valid()
      ensures Rules.WellFormed(s)
    {
      Rules.State(Grid(), Cube())
    }

    /** The end of `GameState.__init__` without the figure: the grid
        `generate` returned becomes `_grid`, and every candidate is set. */
    constructor (G: array2<int>)
      requires G.Length0 == 9 && G.Length1 == 9
      requires forall i, j :: 0 <= i < 9 && 0 <= j < 9 ==> 0 <= G[i, j] <= 9
      ensures Valid() && grid == G
      ensures Cube() == Rules.AllCandidates()
      ensures fresh(cand)
    {
      grid := G;
      cand := new bool[9, 9, 9]((a, b, c) => true);
      new;
      Rules.CubeExt(Cube(), Rules.AllCandidates());
    }

    /** `apply(i, j, k)`: commits digit k + 1 at cell (i, j) if it is still
        a candidate there, clearing the cell's candidates and candidate k in
        its row, column and block. */
    method Apply(i: int, j: int, k: int) returns (ok: bool)
      requires Valid() && IsIndex(i) && IsIndex(j) && IsIndex(k)
      modifies grid, cand
      ensures Valid()
      ensures (ok, State()) == Rules.Apply(old(State()), i, j, k)
    {
      ghost var s := State();
      if !cand[i, j, k] {
        return false;
      }
      // A[i, j, :], A[i, :, k], A[:, j, k] and block_from(A, i, j)[:, :, k]
      // all become 0 (the entries `Rules.Clears` names); the four slice
      // assignments write the same value, so they are made here as one
      forall a, b, c | 0 <= a < 9 && 0 <= b < 9 && 0 <= c < 9 && Rules.Clears(i, j, k, a, b, c) {
        cand[a, b, c] := false;
      }
      grid[i, j] := k + 1;
      ok := true;
      ghost var r := Rules.Apply(s, i, j, k).1;
      assert r == Rules.State(SetCell(s.grid, i, j, k + 1), Rules.ClearCube(s.cand, i, j, k));
      GridExt(Grid(), r.grid);
      Rules.CubeExt(Cube(), r.cand);
    }

    /** The body of `do_init`'s loops at cell (i, j): applies the given
        there with its own digit, if the cell holds one. */
    method InitCell(i: int, j: int)
      requires Valid() && IsIndex(i) && IsIndex(j)
      modifies grid, cand
      ensures Valid()
      ensures State() == Rules.SeedCell(old(State()), 9 * i + j)
    {
      assert (9 * i + j) / 9 == i && (9 * i + j) % 9 == j;
      if grid[i, j] != 0 {
        var _ := Apply(i, j, grid[i, j] - 1);
      }
    }

    /** One pass of `do_init`'s inner loop: applies the givens of row i. */
    method InitRow(i: int, ghost start: Rules.State)
      requires Valid() && IsIndex(i) && Rules.WellFormed(start)
      requires State() == Rules.Seed(start, 9 * i)
      modifies grid, cand
      ensures Valid()
      ensures State() == Rules.Seed(start, 9 * (i + 1))
    {
      ghost var t := 9 * i;
      for j := 0 to 9
        invariant Valid() && t == 9 * i + j
        invariant State() == Rules.Seed(start, t)
      {
        ghost var s := State();
        Rules.SeedNext(start, t);
        InitCell(i, j);
        assert State() == Rules.SeedCell(s, t);
        t := t + 1;
      }
      assert t == 9 * (i + 1);
    }

    /** `do_init()`: applies every given cell with its own digit, row by
        row. */
    method DoInit()
      requires Valid()
      modifies grid, cand
      ensures Valid()
      ensures State() == Rules.Seed(old(State()), 81)
    {
      ghost var start := State();
      for i := 0 to 9
        invariant Valid()
        invariant State() == Rules.Seed(start, 9 * i)
      {
        InitRow(i, start);
      }
    }

    /** `do_move()`: commits the first naked or hidden single, trying the
        four searches in their order; the three further rules the source
        leaves as `pass` do nothing. */
    method DoMove() returns (ok: bool)
      requires Valid()
      modifies grid, cand
      ensures Valid()
      ensures (ok, State()) == Rules.Deduce(old(State()))
    {
      var hit := FindMove(Cube());
      if hit.None? {
        return false;
      }
      var m := hit.value.move;
      var _ := Apply(m.i, m.j, m.k);
      return true;
    }
  }

  /** What `GameState(p_init)` ends with: a new game, or the exception
      `generate` raised. */
  datatype NewGame = Created(game: GameState) | Failed(error: Generator.GenError)

  /** `GameState(p_init)` without the figure: generates a puzzle from the
      given draws and sets every candidate, or raises what `generate`
      raises. */
  method NewGameState(p: Generator.Ratio, d: Generator.Draws) returns (r: NewGame)
    requires Generator.ValidDraws(p, d)
    ensures Generator.GenerateFailure(p).Some? ==> r == Failed(Generator.GenerateFailure(p).value)
    ensures Generator.GenerateFailure(p).None? ==>
      r.Created? && fresh(r.game) && fresh(r.game.grid) && fresh(r.game.cand) && r.game.Valid() &&
      r.game.Grid() == Generator.Puzzle(d) && r.game.Cube() == Rules.AllCandidates()
  {
    var g := Generator.Generate(p, d);
    if g.Raised? {
      return Failed(g.error);
    }
    Generator.PuzzleAt(d, 0, 0);
    var game := new GameState(g.grid);
    GridExt(game.Grid(), Generator.Puzzle(d));
    r := Created(game);
  }

  /** The four searches of `do_move`, each tried only when the ones before
      it found nothing. */
  method FindMove(A: Rules.Cube) returns (hit: Option<Rules.Hit>)
    requires Rules.IsCube(A)
    ensures hit == Rules.NextMove(A)
  {
    hit := FindSingle(A, Rules.NakedSingle);
    if hit.None? {
      hit := FindSingle(A, Rules.HiddenInRow);
      if hit.None? {
        hit := FindSingle(A, Rules.HiddenInColumn);
        if hit.None? {
          hit := FindSingle(A, Rules.HiddenInBlock);
        }
      }
    }
  }

  /** One search loop of `do_move`: the outer index runs over rows, columns
      or blocks (cells' rows for naked singles), the inner one over digits
      (cells' columns), and the first slice that sums to 1 gives the move;
      t counts the visited pairs, 9 * o + x. */
  method FindSingle(A: Rules.Cube, rule: Rules.Rule) returns (hit: Option<Rules.Hit>)
    requires Rules.IsCube(A)
    ensures hit == Rules.FirstHit(A, rule)
  {
    ghost var f := Rules.Matcher(A, rule);
    var t := 0;
    for o := 0 to 9
      invariant t == 9 * o
      invariant Rules.ScanFrom(f, t) == Rules.ScanFrom(f, 0)
    {
      for x := 0 to 9
        invariant t == 9 * o + x
        invariant Rules.ScanFrom(f, t) == Rules.ScanFrom(f, 0)
      {
        if Rules.HasSingle(A, rule, t) {
          return Some(Rules.HitAt(A, rule, t));
        }
        t := t + 1;
      }
    }
    return None;
  }
}
