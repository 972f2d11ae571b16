/** The candidate bookkeeping and deduction rules of `GameState`, on values:
    the state is the pair (`_grid`, `_adj`), and `apply`, `do_init` and
    `do_move` are functions from a state to the next. The class in
    gamestate.dfy performs the same updates in place and is proved to agree
    with these functions; the lemmas here say what the updates achieve. */
module Rules {
  import opened Wrappers
  import opened Counting
  import opened Sudoku

  /** A candidate cube `_adj`: entry [i][j][k] says digit k + 1 is still
      possible at cell (i, j). */
  type Cube = seq<seq<seq<bool>>>

  predicate IsCube(A: Cube)
  {
    |A| == 9 && forall a :: 0 <= a < 9 ==> |A[a]| == 9 && forall b :: 0 <= b < 9 ==> |A[a][b]| == 9
  }

  /** Two cubes with the same entries are the same cube. */
  lemma CubeExt(A: Cube, B: Cube)
    requires IsCube(A) && IsCube(B)
    requires forall a, b, c :: 0 <= a < 9 && 0 <= b < 9 && 0 <= c < 9 ==> A[a][b][c] == B[a][b][c]
    ensures A == B
  {
    forall a | 0 <= a < 9 ensures A[a] == B[a] {
      forall b | 0 <= b < 9 ensures A[a][b] == B[a][b] {
        assert forall c :: 0 <= c < 9 ==> A[a][b][c] == B[a][b][c];
      }
    }
  }

  /** `_grid` and `_adj` together. */
  datatype State = State(grid: Grid, cand: Cube)

  predicate WellFormed(s: State)
  {
    IsGrid(s.grid) && IsCube(s.cand)
  }

  /** `np.ones((9, 9, 9))`: every digit possible everywhere. */
  function AllCandidates(): (A: Cube)
    ensures IsCube(A)
    ensures forall a, b, c :: IsIndex(a) && IsIndex(b) && IsIndex(c) ==> A[a][b][c]
  {
    seq(9, a => seq(9, b => seq(9, c => true)))
  }

  // ---------------------------------------------------------------------
  // apply

  /** Entry (a, b, c) is one that `apply(i, j, k)` sets to 0: every candidate
      of cell (i, j), and candidate k in row i, column j and the block of
      (i, j). */
  predicate Clears(i: int, j: int, k: int, a: int, b: int, c: int)
  {
    (a == i && b == j) || (c == k && Peers(i, j, a, b))
  }

  function ClearCube(A: Cube, i: int, j: int, k: int): (r: Cube)
    requires IsCube(A)
    ensures IsCube(r)
    ensures forall a, b, c :: 0 <= a < 9 && 0 <= b < 9 && 0 <= c < 9 ==>
      r[a][b][c] == (A[a][b][c] && !Clears(i, j, k, a, b, c))
  {
    seq(9, a requires 0 <= a < 9 => seq(9, b requires 0 <= b < 9 => seq(9, c requires 0 <= c < 9 =>
      A[a][b][c] && !Clears(i, j, k, a, b, c))))
  }

  /** `apply(i, j, k)`: returns whether it succeeded, and the new state. It
      succeeds exactly when k + 1 is a candidate of (i, j); when it fails
      nothing changes. */
  function Apply(s: State, i: int, j: int, k: int): (r: (bool, State))
    requires WellFormed(s) && IsIndex(i) && IsIndex(j) && IsIndex(k)
    ensures WellFormed(r.1)
    ensures r.0 == s.cand[i][j][k]
    ensures !r.0 ==> r.1 == s
  {
    if !s.cand[i][j][k] then (false, s)
    else (true, State(SetCell(s.grid, i, j, k + 1), ClearCube(s.cand, i, j, k)))
  }

  /** What a successful `apply(i, j, k)` does, and what it leaves alone. */
  lemma ApplyEffect(s: State, i: int, j: int, k: int)
    requires WellFormed(s) && IsIndex(i) && IsIndex(j) && IsIndex(k)
    // after success the cell holds k + 1 and has no candidates left, and no
    // cell of its row, column or block has k + 1 as a candidate
    ensures var (ok, r) := Apply(s, i, j, k);
      ok ==> (r.grid[i][j] == k + 1 &&
        (forall c :: IsIndex(c) ==> !r.cand[i][j][c]) &&
        (forall a, b :: IsIndex(a) && IsIndex(b) && Peers(i, j, a, b) ==> !r.cand[a][b][k]))
    // candidates are only ever cleared, and only those entries
    ensures var r := Apply(s, i, j, k).1;
      forall a, b, c :: IsIndex(a) && IsIndex(b) && IsIndex(c) && r.cand[a][b][c] ==> s.cand[a][b][c]
    ensures var r := Apply(s, i, j, k).1;
      forall a, b, c :: IsIndex(a) && IsIndex(b) && IsIndex(c) && !Clears(i, j, k, a, b, c) ==>
        r.cand[a][b][c] == s.cand[a][b][c]
    // no other cell of the grid changes
    ensures var r := Apply(s, i, j, k).1;
      forall a, b :: IsIndex(a) && IsIndex(b) && (a, b) != (i, j) ==> r.grid[a][b] == s.grid[a][b]
  {
  }

  /** Every entry set in B is set in A: B arises from A by clearing
      candidates only. */
  ghost predicate Subcube(B: Cube, A: Cube)
    requires IsCube(A) && IsCube(B)
  {
    forall a, b, c :: IsIndex(a) && IsIndex(b) && IsIndex(c) && B[a][b][c] ==> A[a][b][c]
  }

  // ---------------------------------------------------------------------
  // Invariants of the session

  /** Committed cells carry no candidates. */
  ghost predicate NoCandidatesOnFilled(s: State)
    requires WellFormed(s)
  {
    forall a, b, c :: IsIndex(a) && IsIndex(b) && IsIndex(c) && s.grid[a][b] != 0 ==> !s.cand[a][b][c]
  }

  /** Every remaining candidate is a digit that `is_valid` accepts there: no
      row, column or block of the cell holds it yet. */
  ghost predicate CandidatesValid(s: State)
    requires WellFormed(s)
  {
    forall a, b, c :: IsIndex(a) && IsIndex(b) && IsIndex(c) && s.cand[a][b][c] ==> IsValid(s.grid, a, b, c + 1)
  }

  /** The grid obeys the rule of Sudoku and the candidates reflect it. */
  ghost predicate Consistent(s: State)
    requires WellFormed(s)
  {
    NoCandidatesOnFilled(s) && CandidatesValid(s) && NoConflicts(s.grid)
  }

  lemma PeersSymmetric(i: int, j: int, a: int, b: int)
    requires IsIndex(i) && IsIndex(j) && IsIndex(a) && IsIndex(b)
    ensures Peers(i, j, a, b) <==> Peers(a, b, i, j)
  {
    SameBlockIff(i, j, a, b);
  }

  /** `apply` keeps committed cells free of candidates. */
  lemma ApplyKeepsNoCandidatesOnFilled(s: State, i: int, j: int, k: int)
    requires WellFormed(s) && IsIndex(i) && IsIndex(j) && IsIndex(k)
    requires NoCandidatesOnFilled(s)
    ensures NoCandidatesOnFilled(Apply(s, i, j, k).1)
  {
  }

  /** Writing a digit that `is_valid` accepts into an empty cell keeps the
      grid free of conflicts. */
  lemma FillKeepsNoConflicts(G: Grid, i: int, j: int, v: int)
    requires IsGrid(G) && IsIndex(i) && IsIndex(j) && 1 <= v <= 9
    requires NoConflicts(G) && G[i][j] == 0 && IsValid(G, i, j, v)
    ensures NoConflicts(SetCell(G, i, j, v))
  {
    var G' := SetCell(G, i, j, v);
    IsValidIff(G, i, j, v);
    forall a, b, p, q |
      IsIndex(a) && IsIndex(b) && IsIndex(p) && IsIndex(q) &&
      Peers(a, b, p, q) && (a, b) != (p, q) && G'[a][b] != 0
      ensures G'[a][b] != G'[p][q]
    {
      PeersSymmetric(a, b, p, q);
    }
  }

  /** A successful `apply` keeps every remaining candidate acceptable to
      `is_valid`. */
  lemma ApplyKeepsCandidatesValid(s: State, i: int, j: int, k: int)
    requires WellFormed(s) && IsIndex(i) && IsIndex(j) && IsIndex(k)
    requires CandidatesValid(s)
    ensures CandidatesValid(Apply(s, i, j, k).1)
  {
    var s' := Apply(s, i, j, k).1;
    if s.cand[i][j][k] {
      ApplyEffect(s, i, j, k);
      forall a, b, c | IsIndex(a) && IsIndex(b) && IsIndex(c) && s'.cand[a][b][c]
        ensures IsValid(s'.grid, a, b, c + 1)
      {
        IsValidIff(s.grid, a, b, c + 1);
        IsValidIff(s'.grid, a, b, c + 1);
        PeersSymmetric(i, j, a, b);
      }
    }
  }

  /** A successful `apply` on a consistent state commits a digit to an empty
      cell, leaves one empty cell fewer, and keeps the state consistent. */
  lemma ApplyKeepsConsistent(s: State, i: int, j: int, k: int)
    requires WellFormed(s) && IsIndex(i) && IsIndex(j) && IsIndex(k)
    requires Consistent(s) && s.cand[i][j][k]
    ensures s.grid[i][j] == 0
    ensures Consistent(Apply(s, i, j, k).1)
    ensures EmptyCount(Apply(s, i, j, k).1.grid) == EmptyCount(s.grid) - 1
  {
    assert s.grid[i][j] == 0;
    FillOne(s.grid, i, j, k + 1);
    FillKeepsNoConflicts(s.grid, i, j, k + 1);
    ApplyKeepsNoCandidatesOnFilled(s, i, j, k);
    ApplyKeepsCandidatesValid(s, i, j, k);
  }

  // ---------------------------------------------------------------------
  // do_init

  /** One step of `do_init`: cell t (row-major) is applied with its own digit
      when it holds one. */
  function SeedCell(s: State, t: int): (r: State)
    requires WellFormed(s) && 0 <= t < 81
    ensures WellFormed(r)
    ensures r.grid == s.grid
  {
    var i, j := t / 9, t % 9;
    if s.grid[i][j] == 0 then s
    else
      SetCellSame(s.grid, i, j);
      Apply(s, i, j, s.grid[i][j] - 1).1
  }

  /** `do_init` after its loops have visited the first t cells (row-major):
      every given among them has been applied with its own digit. The grid
      is left as it is. */
  function Seed(s: State, t: int): (r: State)
    requires WellFormed(s) && 0 <= t <= 81
    ensures WellFormed(r)
    ensures r.grid == s.grid
  {
    if t == 0 then s else SeedCell(Seed(s, t - 1), t - 1)
  }

  /** `do_init` visits one more cell. */
  lemma SeedNext(s: State, t: int)
    requires WellFormed(s) && 0 <= t < 81
    ensures Seed(s, t + 1) == SeedCell(Seed(s, t), t)
  {
  }

  /** `do_init` only ever clears candidates, whatever the givens. */
  lemma {:induction false} SeedOnlyClears(s: State, t: int)
    requires WellFormed(s) && 0 <= t <= 81
    ensures forall a, b, c :: IsIndex(a) && IsIndex(b) && IsIndex(c) && Seed(s, t).cand[a][b][c] ==> s.cand[a][b][c]
  {
    if t > 0 {
      SeedOnlyClears(s, t - 1);
    }
  }

  /** Given u (row-major) of grid G clears entry (a, b, c) when it is applied. */
  ghost predicate Kills(G: Grid, u: int, a: int, b: int, c: int)
    requires IsGrid(G) && 0 <= u < 81
  {
    G[u / 9][u % 9] != 0 && Clears(u / 9, u % 9, G[u / 9][u % 9] - 1, a, b, c)
  }

  /** No given among the first t cells clears entry (a, b, c). */
  ghost predicate Survives(G: Grid, t: int, a: int, b: int, c: int)
    requires IsGrid(G) && 0 <= t <= 81
  {
    forall u :: 0 <= u < t ==> !Kills(G, u, a, b, c)
  }

  /** Candidates match the givens seeded so far. */
  ghost predicate ReflectsGivens(s: State, t: int)
    requires WellFormed(s) && 0 <= t <= 81
  {
    forall a, b, c :: IsIndex(a) && IsIndex(b) && IsIndex(c) ==> (s.cand[a][b][c] <==> Survives(s.grid, t, a, b, c))
  }

  /** When the givens obey the rule of Sudoku, no given clears the digit of
      another given. */
  lemma GivenSurvives(G: Grid, t: int)
    requires IsGrid(G) && NoConflicts(G) && 0 <= t < 81 && G[t / 9][t % 9] != 0
    ensures Survives(G, t, t / 9, t % 9, G[t / 9][t % 9] - 1)
  {
    var i, j := t / 9, t % 9;
    var k := G[i][j] - 1;
    forall u | 0 <= u < t ensures !Kills(G, u, i, j, k) {
      var p, q := u / 9, u % 9;
      assert (p, q) != (i, j);
      PeersSymmetric(p, q, i, j);
    }
  }

  /** A step of `do_init` whose given is still a candidate clears exactly
      the entries that given kills. */
  lemma SeedCellEntries(s: State, t: int)
    requires WellFormed(s) && 0 <= t < 81
    requires s.grid[t / 9][t % 9] != 0 ==> s.cand[t / 9][t % 9][s.grid[t / 9][t % 9] - 1]
    ensures forall a, b, c :: IsIndex(a) && IsIndex(b) && IsIndex(c) ==>
      SeedCell(s, t).cand[a][b][c] == (s.cand[a][b][c] && !Kills(s.grid, t, a, b, c))
  {
  }

  /** One step of `do_init` keeps the candidates in step with the givens,
      provided the given it applies is still a candidate. */
  lemma SeedCellStep(s: State, t: int)
    requires WellFormed(s) && 0 <= t < 81 && ReflectsGivens(s, t)
    requires s.grid[t / 9][t % 9] != 0 ==> s.cand[t / 9][t % 9][s.grid[t / 9][t % 9] - 1]
    ensures ReflectsGivens(SeedCell(s, t), t + 1)
  {
    var G := s.grid;
    var next := SeedCell(s, t);
    SeedCellEntries(s, t);
    forall a, b, c | IsIndex(a) && IsIndex(b) && IsIndex(c)
      ensures next.cand[a][b][c] <==> Survives(G, t + 1, a, b, c)
    {
      assert Survives(G, t + 1, a, b, c) <==> Survives(G, t, a, b, c) && !Kills(G, t, a, b, c);
    }
  }

  /** On givens that obey the rule of Sudoku the given a step of `do_init`
      applies is still a candidate, so the step keeps the candidates in step
      with the givens. */
  lemma SeedCellSound(s: State, t: int)
    requires WellFormed(s) && 0 <= t < 81 && NoConflicts(s.grid) && ReflectsGivens(s, t)
    ensures ReflectsGivens(SeedCell(s, t), t + 1)
  {
    if s.grid[t / 9][t % 9] != 0 {
      GivenSurvives(s.grid, t);
    }
    SeedCellStep(s, t);
  }

  /** While `do_init` runs on givens that obey the rule of Sudoku, every
      `apply` succeeds, so a candidate survives exactly when no given clears
      it. */
  lemma {:induction false} SeedClears(s: State, t: int)
    requires WellFormed(s) && 0 <= t <= 81 && NoConflicts(s.grid) && ReflectsGivens(s, 0)
    ensures ReflectsGivens(Seed(s, t), t)
  {
    if t > 0 {
      SeedClears(s, t - 1);
      SeedCellSound(Seed(s, t - 1), t - 1);
    }
  }

  /** A candidate no given clears sits at an empty cell, and no peer of
      that cell holds its digit. */
  lemma SurvivorIsFree(G: Grid, a: int, b: int, c: int)
    requires IsGrid(G) && IsIndex(a) && IsIndex(b) && IsIndex(c) && Survives(G, 81, a, b, c)
    ensures G[a][b] == 0
    ensures forall p, q :: IsIndex(p) && IsIndex(q) && Peers(a, b, p, q) ==> G[p][q] != c + 1
  {
    assert !Kills(G, 9 * a + b, a, b, c);
    forall p, q | IsIndex(p) && IsIndex(q) && Peers(a, b, p, q) ensures G[p][q] != c + 1 {
      PeersSymmetric(a, b, p, q);
      assert !Kills(G, 9 * p + q, a, b, c);
    }
  }

  /** A candidate some given clears sits at a filled cell, or a peer of that
      cell holds its digit. */
  lemma KilledIsTaken(G: Grid, a: int, b: int, c: int)
    requires IsGrid(G) && IsIndex(a) && IsIndex(b) && IsIndex(c) && !Survives(G, 81, a, b, c)
    ensures G[a][b] != 0 || exists p, q :: IsIndex(p) && IsIndex(q) && Peers(a, b, p, q) && G[p][q] == c + 1
  {
    var u :| 0 <= u < 81 && Kills(G, u, a, b, c);
    var p, q := u / 9, u % 9;
    if (a, b) != (p, q) {
      PeersSymmetric(p, q, a, b);
      assert IsIndex(p) && IsIndex(q) && Peers(a, b, p, q) && G[p][q] == c + 1;
    }
  }

  /** The candidates no given clears are exactly the digits `is_valid`
      accepts at an empty cell. */
  lemma SurvivorsAreValid(G: Grid, a: int, b: int, c: int)
    requires IsGrid(G) && IsIndex(a) && IsIndex(b) && IsIndex(c)
    ensures Survives(G, 81, a, b, c) <==> G[a][b] == 0 && IsValid(G, a, b, c + 1)
  {
    IsValidIff(G, a, b, c + 1);
    if Survives(G, 81, a, b, c) {
      SurvivorIsFree(G, a, b, c);
    } else {
      KilledIsTaken(G, a, b, c);
    }
  }

  /** `do_init` on a fresh cube and givens that obey the rule of Sudoku leaves
      exactly the candidates `is_valid` accepts: digit c + 1 stays possible at
      (a, b) iff the cell is empty and no given in its row, column or block
      holds c + 1. The session is then consistent. */
  lemma SeedFromGivens(G: Grid)
    requires IsGrid(G) && NoConflicts(G)
    ensures WellFormed(State(G, AllCandidates()))
    ensures var r := Seed(State(G, AllCandidates()), 81);
      r.grid == G &&
      (forall a, b, c :: IsIndex(a) && IsIndex(b) && IsIndex(c) ==>
        (r.cand[a][b][c] <==> G[a][b] == 0 && IsValid(G, a, b, c + 1))) &&
      Consistent(r)
  {
    var s := State(G, AllCandidates());
    SeedClears(s, 81);
    var r := Seed(s, 81);
    forall a, b, c | IsIndex(a) && IsIndex(b) && IsIndex(c)
      ensures r.cand[a][b][c] <==> G[a][b] == 0 && IsValid(G, a, b, c + 1)
    {
      SurvivorsAreValid(G, a, b, c);
    }
  }


  // ---------------------------------------------------------------------
  // do_move

  /** The four deduction rules of `do_move`, in the order it tries them. */
  datatype Rule = NakedSingle | HiddenInRow | HiddenInColumn | HiddenInBlock

  function Rank(rule: Rule): int
  {
    match rule
    case NakedSingle => 0
    case HiddenInRow => 1
    case HiddenInColumn => 2
    case HiddenInBlock => 3
  }

  /** Commit digit k + 1 at cell (i, j). */
  datatype Move = Move(i: int, j: int, k: int)

  /** The first match of `do_move`: the rule, its scan position and the move. */
  datatype Hit = Hit(rule: Rule, pos: int, move: Move)

  /** The nine candidate entries a rule sums at scan position t; the outer
      loop index is t / 9 and the inner one t % 9:
      `A[i, j]`, `A[i, :][:, k]`, `A[:, j][:, k]` and
      `block(A, m).reshape(-1, 9)[:, k]`. */
  function Slice(A: Cube, rule: Rule, t: int): (v: seq<bool>)
    requires IsCube(A) && 0 <= t < 81
    ensures |v| == 9
  {
    var o, x := t / 9, t % 9;
    match rule
    case NakedSingle => A[o][x]
    case HiddenInRow => seq(9, j requires 0 <= j < 9 => A[o][j][x])
    case HiddenInColumn => seq(9, i requires 0 <= i < 9 => A[i][o][x])
    case HiddenInBlock => seq(9, n requires 0 <= n < 9 => A[BlockRow(o, n)][BlockCol(o, n)][x])
  }

  /** The rule matches at scan position t: the slice sums to 1. */
  predicate HasSingle(A: Cube, rule: Rule, t: int)
    requires IsCube(A) && 0 <= t < 81
  {
    CountTrue(Slice(A, rule, t)) == 1
  }

  /** The move a rule makes at scan position t when entry n of the slice is
      the single one. */
  function MoveAt(rule: Rule, t: int, n: int): (m: Move)
    requires 0 <= t < 81 && IsIndex(n)
    ensures IsIndex(m.i) && IsIndex(m.j) && IsIndex(m.k)
  {
    var o, x := t / 9, t % 9;
    match rule
    case NakedSingle => Move(o, x, n)
    case HiddenInRow => Move(o, n, x)
    case HiddenInColumn => Move(n, o, x)
    case HiddenInBlock => BlockCell(o, n); Move(BlockRow(o, n), BlockCol(o, n), x)
  }

  /** Entry n of a rule's slice at scan position t is the candidate entry of
      the move that rule makes there. */
  lemma SliceEntry(A: Cube, rule: Rule, t: int, n: int)
    requires IsCube(A) && 0 <= t < 81 && IsIndex(n)
    ensures var m := MoveAt(rule, t, n); Slice(A, rule, t)[n] == A[m.i][m.j][m.k]
  {
    match rule
    case NakedSingle =>
    case HiddenInRow =>
    case HiddenInColumn =>
    case HiddenInBlock => BlockCell(t / 9, n);
  }

  /** The hit of a rule that matches at t; its move is a candidate. */
  function HitAt(A: Cube, rule: Rule, t: int): (h: Hit)
    requires IsCube(A) && 0 <= t < 81 && HasSingle(A, rule, t)
    ensures true in Slice(A, rule, t)
    ensures h == Hit(rule, t, MoveAt(rule, t, FirstTrue(Slice(A, rule, t))))
    ensures A[h.move.i][h.move.j][h.move.k]
  {
    var v := Slice(A, rule, t);
    SingleTrue(v);
    SliceEntry(A, rule, t, FirstTrue(v));
    Hit(rule, t, MoveAt(rule, t, FirstTrue(v)))
  }

  /** The rule matches nowhere. */
  ghost predicate NoMatch(A: Cube, rule: Rule)
    requires IsCube(A)
  {
    forall t :: 0 <= t < 81 ==> !HasSingle(A, rule, t)
  }

  /** No rule matches anywhere. */
  ghost predicate NoSingles(A: Cube)
    requires IsCube(A)
  {
    forall rule :: NoMatch(A, rule)
  }

  /** No rule tried before `rule` matches anywhere. */
  ghost predicate NoEarlierMatch(A: Cube, rule: Rule)
    requires IsCube(A)
  {
    forall earlier :: Rank(earlier) < Rank(rule) ==> NoMatch(A, earlier)
  }

  /** The four rules are all there are, in this order. */
  lemma EveryRule(A: Cube)
    requires IsCube(A)
    ensures NoEarlierMatch(A, NakedSingle)
    ensures NoMatch(A, NakedSingle) ==> NoEarlierMatch(A, HiddenInRow)
    ensures NoMatch(A, NakedSingle) && NoMatch(A, HiddenInRow) ==> NoEarlierMatch(A, HiddenInColumn)
    ensures NoMatch(A, NakedSingle) && NoMatch(A, HiddenInRow) && NoMatch(A, HiddenInColumn) ==>
      NoEarlierMatch(A, HiddenInBlock)
    ensures NoSingles(A) <==>
      NoMatch(A, NakedSingle) && NoMatch(A, HiddenInRow) && NoMatch(A, HiddenInColumn) && NoMatch(A, HiddenInBlock)
  {
    forall rule, last |
      Rank(rule) <= Rank(last) && NoMatch(A, NakedSingle) &&
      (Rank(last) >= 2 ==> NoMatch(A, HiddenInRow)) &&
      (Rank(last) >= 3 ==> NoMatch(A, HiddenInColumn)) &&
      (last == HiddenInBlock ==> NoMatch(A, HiddenInBlock))
      ensures (rule == last && last != HiddenInBlock) || NoMatch(A, rule)
    {
      match rule
      case NakedSingle =>
      case HiddenInRow =>
      case HiddenInColumn =>
      case HiddenInBlock =>
    }
  }

  /** h is the first match in `do_move`'s order: its rule matches at its
      position, not earlier in its own scan, and no rule tried before it
      matches anywhere; the move is read off the first true entry of the
      slice. */
  ghost predicate IsFirstHit(A: Cube, h: Hit)
    requires IsCube(A)
  {
    0 <= h.pos < 81 && HasSingle(A, h.rule, h.pos) &&
    (forall t :: 0 <= t < h.pos ==> !HasSingle(A, h.rule, t)) &&
    NoEarlierMatch(A, h.rule) &&
    h == HitAt(A, h.rule, h.pos)
  }

  /** A scan over positions t, t + 1, ..., 80: the first one where `matches`
      holds, if any. */
  function ScanFrom(matches: nat -> bool, t: nat): (r: Option<nat>)
    requires t <= 81
    decreases 81 - t
  {
    if t == 81 then None
    else if matches(t) then Some(t)
    else ScanFrom(matches, t + 1)
  }

  /** The scan from t finds nothing exactly when nothing matches from t on,
      and otherwise the first match from t on. */
  lemma {:induction false} ScanFromSpec(matches: nat -> bool, t: nat)
    requires t <= 81
    ensures var r := ScanFrom(matches, t);
      (r.None? <==> forall u :: t <= u < 81 ==> !matches(u)) &&
      (r.Some? ==>
        t <= r.value < 81 && matches(r.value) && (forall u :: t <= u < r.value ==> !matches(u)))
    decreases 81 - t
  {
    if t < 81 && !matches(t) {
      ScanFromSpec(matches, t + 1);
    }
  }

  /** Where a rule matches, as a predicate on scan positions. */
  function Matcher(A: Cube, rule: Rule): nat -> bool
    requires IsCube(A)
  {
    t => 0 <= t < 81 && HasSingle(A, rule, t)
  }

  /** One rule's double loop: the hit at its first match, if it has any. */
  function FirstHit(A: Cube, rule: Rule): (r: Option<Hit>)
    requires IsCube(A)
    ensures r.Some? ==> IsIndex(r.value.move.i) && IsIndex(r.value.move.j) && IsIndex(r.value.move.k)
  {
    var p := ScanFrom(Matcher(A, rule), 0);
    if p.None? then None
    else
      ScanFromSpec(Matcher(A, rule), 0);
      Some(HitAt(A, rule, p.value))
  }

  /** A rule's loop finds nothing exactly when the rule matches nowhere,
      and otherwise the hit of its first match. */
  lemma FirstHitSpec(A: Cube, rule: Rule)
    requires IsCube(A)
    ensures var r := FirstHit(A, rule);
      (r.None? <==> NoMatch(A, rule)) &&
      (r.Some? ==>
        0 <= r.value.pos < 81 && HasSingle(A, rule, r.value.pos) &&
        (forall u :: 0 <= u < r.value.pos ==> !HasSingle(A, rule, u)) &&
        r.value == HitAt(A, rule, r.value.pos))
  {
    var f := Matcher(A, rule);
    ScanFromSpec(f, 0);
    var p := ScanFrom(f, 0);
    if p.None? {
      forall u | 0 <= u < 81 ensures !HasSingle(A, rule, u) {
        assert !f(u);
      }
    } else {
      forall u | 0 <= u < p.value ensures !HasSingle(A, rule, u) {
        assert !f(u);
      }
    }
  }

  /** The match `do_move` acts on: naked singles first, then hidden singles
      by row, by column and by block, each scanned in its own order. */
  function NextMove(A: Cube): (r: Option<Hit>)
    requires IsCube(A)
    ensures r.Some? ==> IsIndex(r.value.move.i) && IsIndex(r.value.move.j) && IsIndex(r.value.move.k)
  {
    var naked := FirstHit(A, NakedSingle);
    if naked.Some? then naked
    else
      var row := FirstHit(A, HiddenInRow);
      if row.Some? then row
      else
        var column := FirstHit(A, HiddenInColumn);
        if column.Some? then column
        else FirstHit(A, HiddenInBlock)
  }

  /** `do_move` finds nothing exactly when no rule matches anywhere, and
      otherwise acts on the first match in its order, whose move is a
      candidate. */
  lemma NextMoveSpec(A: Cube)
    requires IsCube(A)
    ensures NextMove(A).None? <==> NoSingles(A)
    ensures NextMove(A).Some? ==> IsFirstHit(A, NextMove(A).value)
    ensures NextMove(A).Some? ==> A[NextMove(A).value.move.i][NextMove(A).value.move.j][NextMove(A).value.move.k]
  {
    FirstHitSpec(A, NakedSingle);
    FirstHitSpec(A, HiddenInRow);
    FirstHitSpec(A, HiddenInColumn);
    FirstHitSpec(A, HiddenInBlock);
    EveryRule(A);
  }

  /** What a match means: the move's digit is a candidate of its cell, and
      it is forced. A naked single is the only candidate of its cell; a
      hidden single is the only cell of its row, column or block where the
      digit is a candidate. */
  lemma HitIsForced(A: Cube, h: Hit)
    requires IsCube(A) && IsFirstHit(A, h)
    ensures A[h.move.i][h.move.j][h.move.k]
    ensures h.rule == NakedSingle ==>
      forall c :: IsIndex(c) && A[h.move.i][h.move.j][c] ==> c == h.move.k
    ensures h.rule == HiddenInRow ==>
      forall b :: IsIndex(b) && A[h.move.i][b][h.move.k] ==> b == h.move.j
    ensures h.rule == HiddenInColumn ==>
      forall a :: IsIndex(a) && A[a][h.move.j][h.move.k] ==> a == h.move.i
    ensures h.rule == HiddenInBlock ==>
      forall a, b :: IsIndex(a) && IsIndex(b) && SameBlock(h.move.i, h.move.j, a, b) && A[a][b][h.move.k] ==>
        a == h.move.i && b == h.move.j
  {
    var v := Slice(A, h.rule, h.pos);
    var n := FirstTrue(v);
    SingleTrue(v);
    var m, x := h.pos / 9, h.pos % 9;
    if h.rule == HiddenInBlock {
      BlockCell(m, n);
      assert A[BlockRow(m, n)][BlockCol(m, n)][x] == v[n];
      forall a, b | IsIndex(a) && IsIndex(b) && SameBlock(h.move.i, h.move.j, a, b) && A[a][b][h.move.k]
        ensures a == h.move.i && b == h.move.j
      {
        SameBlockIff(h.move.i, h.move.j, a, b);
        CellInBlock(a, b);
        assert v[PlaceInBlock(a, b)] == A[a][b][x];
      }
    } else if h.rule == HiddenInRow {
      assert v[n] == A[m][n][x];
      forall b | IsIndex(b) && A[h.move.i][b][h.move.k] ensures b == h.move.j {
        assert v[b] == A[m][b][x];
      }
    } else if h.rule == HiddenInColumn {
      assert v[n] == A[n][m][x];
      forall a | IsIndex(a) && A[a][h.move.j][h.move.k] ensures a == h.move.i {
        assert v[a] == A[a][m][x];
      }
    }
  }

  /** `do_move()`: applies the first match, if any, and says whether it did. */
  function Deduce(s: State): (r: (bool, State))
    requires WellFormed(s)
    ensures WellFormed(r.1)
    ensures r.0 == NextMove(s.cand).Some?
    ensures !r.0 ==> r.1 == s
  {
    match NextMove(s.cand)
    case None => (false, s)
    case Some(h) => (true, Apply(s, h.move.i, h.move.j, h.move.k).1)
  }

  /** `do_move` only ever clears candidates. */
  lemma DeduceOnlyClears(s: State)
    requires WellFormed(s)
    ensures Subcube(Deduce(s).1.cand, s.cand)
  {
    if Deduce(s).0 {
      var m := NextMove(s.cand).value.move;
      ApplyEffect(s, m.i, m.j, m.k);
    }
  }

  /** A successful `do_move` on a state whose committed cells carry no
      candidates writes the move's digit into its cell, which was empty, and
      nothing else into the grid; one empty cell fewer remains and the
      invariant is kept. */
  lemma DeduceFillsOneCell(s: State)
    requires WellFormed(s) && NoCandidatesOnFilled(s) && Deduce(s).0
    ensures var m := NextMove(s.cand).value.move;
      s.grid[m.i][m.j] == 0 && Deduce(s).1.grid == SetCell(s.grid, m.i, m.j, m.k + 1)
    ensures EmptyCount(Deduce(s).1.grid) == EmptyCount(s.grid) - 1
    ensures NoCandidatesOnFilled(Deduce(s).1)
  {
    NextMoveSpec(s.cand);
    var m := NextMove(s.cand).value.move;
    ApplyKeepsNoCandidatesOnFilled(s, m.i, m.j, m.k);
    FillOne(s.grid, m.i, m.j, m.k + 1);
  }

  /** `do_move` keeps a consistent state consistent. */
  lemma DeduceKeepsConsistent(s: State)
    requires WellFormed(s) && Consistent(s)
    ensures Consistent(Deduce(s).1)
  {
    if Deduce(s).0 {
      NextMoveSpec(s.cand);
      var m := NextMove(s.cand).value.move;
      ApplyKeepsConsistent(s, m.i, m.j, m.k);
    }
  }

  /** On a full grid whose cells carry no candidates no rule matches, so
      `do_move` fails. */
  lemma FullGridHasNoMove(s: State)
    requires WellFormed(s) && NoCandidatesOnFilled(s) && Filled(s.grid)
    ensures NextMove(s.cand).None?
  {
    forall rule | true ensures NoMatch(s.cand, rule) {
      forall t | 0 <= t < 81 ensures !HasSingle(s.cand, rule, t) {
        var v := Slice(s.cand, rule, t);
        forall n | 0 <= n < 9 ensures !v[n] {
          SliceEntry(s.cand, rule, t, n);
        }
        AllFalse(v);
      }
    }
    NextMoveSpec(s.cand);
  }
}
