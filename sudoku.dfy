/** The 9×9 board of `GameState`: the geometry of rows, columns and 3×3
    blocks, the two grid queries `is_valid` and `is_done`, and the rule of
    Sudoku itself (no digit twice in a row, column or block), which
    `is_done` is proved to decide. */
module Sudoku {
  import opened Counting

  /** A grid `_grid`: 0 is an empty cell, 1..9 a committed digit. */
  type Grid = seq<seq<int>>

  /** A row, column, block, digit slot or position inside a block. */
  predicate IsIndex(x: int)
  {
    0 <= x < 9
  }

  /** A 9×9 array of digits 0..9. */
  predicate IsGrid(G: Grid)
  {
    |G| == 9 && forall i :: 0 <= i < 9 ==> |G[i]| == 9 && forall j :: 0 <= j < 9 ==> 0 <= G[i][j] <= 9
  }

  // ---------------------------------------------------------------------
  // Geometry

  /** Row of the n-th cell (row-major) of block m. */
  function BlockRow(m: int, n: int): int
  {
    (m / 3) * 3 + n / 3
  }

  /** Column of the n-th cell (row-major) of block m. */
  function BlockCol(m: int, n: int): int
  {
    (m % 3) * 3 + n % 3
  }

  /** The block, numbered row-major, that holds cell (i, j). */
  function BlockOf(i: int, j: int): int
  {
    (i / 3) * 3 + j / 3
  }

  /** The position, row-major, of cell (i, j) inside its block. */
  function PlaceInBlock(i: int, j: int): int
  {
    (i % 3) * 3 + j % 3
  }

  /** Cell (a, b) lies in the 3×3 slice `block_from(A, i, j)`. */
  predicate SameBlock(i: int, j: int, a: int, b: int)
  {
    i / 3 * 3 <= a < i / 3 * 3 + 3 && j / 3 * 3 <= b < j / 3 * 3 + 3
  }

  /** Cell (a, b) shares the row, the column or the block of cell (i, j)
      (the cell itself included). */
  predicate Peers(i: int, j: int, a: int, b: int)
  {
    a == i || b == j || SameBlock(i, j, a, b)
  }

  /** Cell (i, j) is number 9 * i + j in row-major order, and no other
      number names it. */
  lemma CellNumber(i: int, j: int, u: int)
    requires IsIndex(i) && IsIndex(j) && 0 <= u < 81
    ensures u == 9 * i + j <==> u / 9 == i && u % 9 == j
  {
  }

  /** The block mapping of `do_move`: the n-th cell of block m is a cell of
      the board, it lies in block m, and it sits at position n there. */
  lemma BlockCell(m: int, n: int)
    requires IsIndex(m) && IsIndex(n)
    ensures IsIndex(BlockRow(m, n)) && IsIndex(BlockCol(m, n))
    ensures BlockOf(BlockRow(m, n), BlockCol(m, n)) == m
    ensures PlaceInBlock(BlockRow(m, n), BlockCol(m, n)) == n
  {
  }

  /** Every cell is reached by the block mapping, from its own block and
      position. */
  lemma CellInBlock(i: int, j: int)
    requires IsIndex(i) && IsIndex(j)
    ensures IsIndex(BlockOf(i, j)) && IsIndex(PlaceInBlock(i, j))
    ensures BlockRow(BlockOf(i, j), PlaceInBlock(i, j)) == i
    ensures BlockCol(BlockOf(i, j), PlaceInBlock(i, j)) == j
  {
  }

  /** The slice `block_from(A, i, j)` is block number BlockOf(i, j). */
  lemma SameBlockIff(i: int, j: int, a: int, b: int)
    requires IsIndex(i) && IsIndex(j) && IsIndex(a) && IsIndex(b)
    ensures SameBlock(i, j, a, b) <==> BlockOf(i, j) == BlockOf(a, b)
    ensures SameBlock(i, j, a, b) <==> SameBlock(a, b, i, j)
  {
  }

  // ---------------------------------------------------------------------
  // The 27 scopes of a grid

  /** `G[i, :]` */
  function Row(G: Grid, i: int): (r: seq<int>)
    requires IsGrid(G) && IsIndex(i)
    ensures |r| == 9
  {
    G[i]
  }

  /** `G[:, j]` */
  function Column(G: Grid, j: int): (r: seq<int>)
    requires IsGrid(G) && IsIndex(j)
    ensures |r| == 9
  {
    seq(9, a requires 0 <= a < 9 => G[a][j])
  }

  /** `block(G, m).reshape(-1)`: block m read row by row. */
  function Block(G: Grid, m: int): (r: seq<int>)
    requires IsGrid(G) && IsIndex(m)
    ensures |r| == 9
  {
    seq(9, n requires 0 <= n < 9 => G[BlockRow(m, n)][BlockCol(m, n)])
  }

  /** `block_from(G, i, j).reshape(-1)`: the block around (i, j) read row by
      row. */
  function BlockAround(G: Grid, i: int, j: int): (r: seq<int>)
    requires IsGrid(G) && IsIndex(i) && IsIndex(j)
    ensures |r| == 9
  {
    seq(9, n requires 0 <= n < 9 => G[i / 3 * 3 + n / 3][j / 3 * 3 + n % 3])
  }

  /** Both block helpers of the source read the same nine cells in the same
      order. */
  lemma BlockAroundIsBlock(G: Grid, i: int, j: int)
    requires IsGrid(G) && IsIndex(i) && IsIndex(j)
    ensures BlockAround(G, i, j) == Block(G, BlockOf(i, j))
  {
    var m := BlockOf(i, j);
    assert m / 3 == i / 3 && m % 3 == j / 3;
    forall n | 0 <= n < 9 ensures BlockAround(G, i, j)[n] == Block(G, m)[n] {
      assert BlockRow(m, n) == i / 3 * 3 + n / 3 && BlockCol(m, n) == j / 3 * 3 + n % 3;
    }
  }

  // ---------------------------------------------------------------------
  // is_valid

  /** `is_valid(i, j, k)` as written: no cell of row i, column j or the
      block of (i, j) holds the value k itself. */
  predicate IsValid(G: Grid, i: int, j: int, k: int)
    requires IsGrid(G) && IsIndex(i) && IsIndex(j)
  {
    k !in Row(G, i) && k !in Column(G, j) && k !in BlockAround(G, i, j)
  }

  /** `is_valid(i, j, v)` holds exactly when no peer of (i, j) holds v. */
  lemma IsValidIff(G: Grid, i: int, j: int, v: int)
    requires IsGrid(G) && IsIndex(i) && IsIndex(j)
    ensures IsValid(G, i, j, v) <==>
      forall a, b :: IsIndex(a) && IsIndex(b) && Peers(i, j, a, b) ==> G[a][b] != v
  {
    if IsValid(G, i, j, v) {
      forall a, b | IsIndex(a) && IsIndex(b) && Peers(i, j, a, b)
        ensures G[a][b] != v
      {
        if a == i {
          assert Row(G, i)[b] == G[a][b];
        } else if b == j {
          assert Column(G, j)[a] == G[a][b];
        } else {
          var n := (a - i / 3 * 3) * 3 + (b - j / 3 * 3);
          assert BlockAround(G, i, j)[n] == G[a][b];
        }
      }
    } else {
      if v in Row(G, i) {
        var b :| 0 <= b < 9 && Row(G, i)[b] == v;
        assert Peers(i, j, i, b);
      } else if v in Column(G, j) {
        var a :| 0 <= a < 9 && Column(G, j)[a] == v;
        assert Peers(i, j, a, j);
      } else {
        var n :| 0 <= n < 9 && BlockAround(G, i, j)[n] == v;
        assert Peers(i, j, i / 3 * 3 + n / 3, j / 3 * 3 + n % 3);
      }
    }
  }

  // ---------------------------------------------------------------------
  // is_done and the rule of Sudoku

  /** Every cell holds a digit. */
  predicate Filled(G: Grid)
    requires IsGrid(G)
  {
    forall i, j :: 0 <= i < 9 && 0 <= j < 9 ==> G[i][j] != 0
  }

  /** The rule of Sudoku: no two different cells of one row, column or block
      hold the same digit. */
  ghost predicate NoConflicts(G: Grid)
    requires IsGrid(G)
  {
    forall i, j, a, b ::
      IsIndex(i) && IsIndex(j) && IsIndex(a) && IsIndex(b) &&
      Peers(i, j, a, b) && (i, j) != (a, b) && G[i][j] != 0
      ==> G[i][j] != G[a][b]
  }

  /** `is_done()`: no cell is 0, and every row, every column and every block
      holds each of the digits 1..9 exactly once. */
  predicate IsDone(G: Grid)
    requires IsGrid(G)
  {
    Filled(G) &&
    (forall i, d :: 0 <= i < 9 && 1 <= d <= 9 ==> Count(Row(G, i), d) == 1) &&
    (forall j, d :: 0 <= j < 9 && 1 <= d <= 9 ==> Count(Column(G, j), d) == 1) &&
    (forall m, d :: 0 <= m < 9 && 1 <= d <= 9 ==> Count(Block(G, m), d) == 1)
  }

  /** A scope whose nine values are distinct digits holds every digit once. */
  lemma {:induction false} EachDigitOnce(s: seq<int>)
    requires IsPermutation(s, 1, 9)
    ensures forall d :: 1 <= d <= 9 ==> Count(s, d) == 1
  {
    Pigeonhole(s, 1, 9);
    forall d | 1 <= d <= 9 ensures Count(s, d) == 1 {
      CountOfDistinct(s, d);
    }
  }

  /** Under the rule of Sudoku every row of a full grid is a permutation of
      the digits; likewise every column and every block below. */
  lemma RowIsPermutation(G: Grid, i: int)
    requires IsGrid(G) && Filled(G) && NoConflicts(G) && IsIndex(i)
    ensures IsPermutation(Row(G, i), 1, 9)
  {
    forall t, u | 0 <= t < 9 && 0 <= u < 9 && t != u
      ensures Row(G, i)[t] != Row(G, i)[u]
    {
      assert Peers(i, t, i, u);
    }
  }

  lemma ColumnIsPermutation(G: Grid, j: int)
    requires IsGrid(G) && Filled(G) && NoConflicts(G) && IsIndex(j)
    ensures IsPermutation(Column(G, j), 1, 9)
  {
    forall t, u | 0 <= t < 9 && 0 <= u < 9 && t != u
      ensures Column(G, j)[t] != Column(G, j)[u]
    {
      assert Peers(t, j, u, j);
    }
  }

  lemma BlockIsPermutation(G: Grid, m: int)
    requires IsGrid(G) && Filled(G) && NoConflicts(G) && IsIndex(m)
    ensures IsPermutation(Block(G, m), 1, 9)
  {
    forall t, u | 0 <= t < 9 && 0 <= u < 9 && t != u
      ensures Block(G, m)[t] != Block(G, m)[u]
    {
      var i, j, a, b := BlockRow(m, t), BlockCol(m, t), BlockRow(m, u), BlockCol(m, u);
      BlockCell(m, t);
      BlockCell(m, u);
      SameBlockIff(i, j, a, b);
      assert Peers(i, j, a, b) && (i, j) != (a, b);
      assert Block(G, m)[t] == G[i][j] && Block(G, m)[u] == G[a][b];
    }
  }

  /** `is_done` decides the rule of Sudoku: it holds exactly for a full grid
      in which no digit repeats in any row, column or block. */
  lemma IsDoneIff(G: Grid)
    requires IsGrid(G)
    ensures IsDone(G) <==> Filled(G) && NoConflicts(G)
  {
    if IsDone(G) {
      forall i, j, a, b |
        IsIndex(i) && IsIndex(j) && IsIndex(a) && IsIndex(b) &&
        Peers(i, j, a, b) && (i, j) != (a, b) && G[i][j] != 0
        ensures G[i][j] != G[a][b]
      {
        var v := G[i][j];
        if v == G[a][b] {
          if a == i {
            CountOfRepeat(Row(G, i), v, j, b);
          } else if b == j {
            CountOfRepeat(Column(G, j), v, i, a);
          } else {
            var m := BlockOf(i, j);
            SameBlockIff(i, j, a, b);
            CellInBlock(i, j);
            CellInBlock(a, b);
            assert Block(G, m)[PlaceInBlock(i, j)] == v;
            assert Block(G, m)[PlaceInBlock(a, b)] == v;
            CountOfRepeat(Block(G, m), v, PlaceInBlock(i, j), PlaceInBlock(a, b));
          }
        }
      }
    }
    if Filled(G) && NoConflicts(G) {
      forall i | IsIndex(i) ensures forall d :: 1 <= d <= 9 ==> Count(Row(G, i), d) == 1 {
        RowIsPermutation(G, i);
        EachDigitOnce(Row(G, i));
      }
      forall j | IsIndex(j) ensures forall d :: 1 <= d <= 9 ==> Count(Column(G, j), d) == 1 {
        ColumnIsPermutation(G, j);
        EachDigitOnce(Column(G, j));
      }
      forall m | IsIndex(m) ensures forall d :: 1 <= d <= 9 ==> Count(Block(G, m), d) == 1 {
        BlockIsPermutation(G, m);
        EachDigitOnce(Block(G, m));
      }
    }
  }

  // ---------------------------------------------------------------------
  // Empty cells

  /** Number of empty cells among the first t cells in row-major order. */
  function EmptyBelow(G: Grid, t: int): (n: nat)
    requires IsGrid(G) && 0 <= t <= 81
    ensures n <= t
  {
    if t == 0 then 0
    else EmptyBelow(G, t - 1) + (if G[(t - 1) / 9][(t - 1) % 9] == 0 then 1 else 0)
  }

  /** Number of empty cells (`np.sum(G == 0)`). */
  function EmptyCount(G: Grid): (n: nat)
    requires IsGrid(G)
    ensures n <= 81
  {
    EmptyBelow(G, 81)
  }

  /** `G` with cell (i, j) set to v. */
  function SetCell(G: Grid, i: int, j: int, v: int): (r: Grid)
    requires IsGrid(G) && IsIndex(i) && IsIndex(j) && 0 <= v <= 9
    ensures IsGrid(r)
    ensures r[i][j] == v
    ensures forall a, b :: IsIndex(a) && IsIndex(b) && (a, b) != (i, j) ==> r[a][b] == G[a][b]
  {
    G[i := G[i][j := v]]
  }

  /** Two grids with the same cells are the same grid. */
  lemma GridExt(G: Grid, H: Grid)
    requires IsGrid(G) && IsGrid(H)
    requires forall i, j :: 0 <= i < 9 && 0 <= j < 9 ==> G[i][j] == H[i][j]
    ensures G == H
  {
    forall i | 0 <= i < 9 ensures G[i] == H[i] {
      assert forall j :: 0 <= j < 9 ==> G[i][j] == H[i][j];
    }
  }

  /** Writing the digit a cell already holds changes nothing. */
  lemma SetCellSame(G: Grid, i: int, j: int)
    requires IsGrid(G) && IsIndex(i) && IsIndex(j)
    ensures SetCell(G, i, j, G[i][j]) == G
  {
    assert G[i][j := G[i][j]] == G[i];
  }

  lemma {:induction false} FillBelow(G: Grid, i: int, j: int, v: int, t: int)
    requires IsGrid(G) && IsIndex(i) && IsIndex(j) && 1 <= v <= 9 && G[i][j] == 0
    requires 0 <= t <= 81
    ensures EmptyBelow(SetCell(G, i, j, v), t) + (if 9 * i + j < t then 1 else 0) == EmptyBelow(G, t)
  {
    if t > 0 {
      FillBelow(G, i, j, v, t - 1);
    }
  }

  /** Writing a digit into an empty cell leaves one empty cell fewer. */
  lemma FillOne(G: Grid, i: int, j: int, v: int)
    requires IsGrid(G) && IsIndex(i) && IsIndex(j) && 1 <= v <= 9 && G[i][j] == 0
    ensures EmptyCount(SetCell(G, i, j, v)) == EmptyCount(G) - 1
  {
    FillBelow(G, i, j, v, 81);
  }

  lemma {:induction false} NoEmptyBelow(G: Grid, t: int)
    requires IsGrid(G) && 0 <= t <= 81
    ensures EmptyBelow(G, t) == 0 <==> forall u :: 0 <= u < t ==> G[u / 9][u % 9] != 0
  {
    if t > 0 {
      NoEmptyBelow(G, t - 1);
    }
  }

  /** A grid has no empty cell exactly when it is full. */
  lemma NoEmptyIsFilled(G: Grid)
    requires IsGrid(G)
    ensures EmptyCount(G) == 0 <==> Filled(G)
  {
    NoEmptyBelow(G, 81);
    if Filled(G) {
      forall u | 0 <= u < 81 ensures G[u / 9][u % 9] != 0 {
      }
    }
    if EmptyCount(G) == 0 {
      forall i, j | 0 <= i < 9 && 0 <= j < 9 ensures G[i][j] != 0 {
        assert (9 * i + j) / 9 == i && (9 * i + j) % 9 == j;
        assert G[(9 * i + j) / 9][(9 * i + j) % 9] != 0;
      }
    }
  }
}
