/** `GameState.animate`: the generator that drives a session. It shows the
    puzzle, seeds the candidates with `do_init`, then calls `do_move` until
    it fails ("I'm stuck!") or the grid is solved ("Done!"). Each resumption
    of the generator is one `Step` of a state machine whose phase says where
    the generator is suspended; the frames it yields carry only their
    caption, since drawing is not modelled. */
module Driver {
  import opened Wrappers
  import opened Sudoku
  import Generator
  import opened Rules
  import Game

  /** Where `animate` is suspended. */
  datatype Phase =
    | Created       // not started yet
    | ShownInitial  // after the first `yield` (the puzzle as generated)
    | Seeded        // after the `yield` that follows `do_init`
    | Moved         // after the `yield` that follows a successful move
    | Stopped       // after the last caption: the next resumption ends it

  /** What one resumption produces: a frame with its caption, or the end of
      the generator. */
  datatype Output = Frame(caption: Option<string>) | Exhausted

  const StuckCaption: string := "I'm stuck!"
  const DoneCaption: string := "Done!"

  datatype Session = Session(phase: Phase, state: State)

  predicate SessionWellFormed(x: Session)
  {
    WellFormed(x.state)
  }

  /** The body of the `while True` loop from its top: a move, then a frame
      for it or the stuck caption. */
  function Attempt(s: State): (r: (Output, Session))
    requires WellFormed(s)
    ensures SessionWellFormed(r.1)
  {
    var (ok, next) := Deduce(s);
    if ok then (Frame(None), Session(Moved, next))
    else (Frame(Some(StuckCaption)), Session(Stopped, next))
  }

  /** One resumption of `animate`. After a move the grid is checked with
      `is_done` before the next move; right after `do_init` it is not. */
  function Step(x: Session): (r: (Output, Session))
    requires SessionWellFormed(x)
    ensures SessionWellFormed(r.1)
  {
    match x.phase
    case Created => (Frame(None), Session(ShownInitial, x.state))
    case ShownInitial => (Frame(None), Session(Seeded, Seed(x.state, 81)))
    case Seeded => Attempt(x.state)
    case Moved =>
      if IsDone(x.state.grid) then (Frame(Some(DoneCaption)), Session(Stopped, x.state))
      else Attempt(x.state)
    case Stopped => (Exhausted, x)
  }

  /** The session after n resumptions. */
  function Run(x: Session, n: nat): (r: Session)
    requires SessionWellFormed(x)
    ensures SessionWellFormed(r)
    decreases n
  {
    if n == 0 then x else Step(Run(x, n - 1)).1
  }

  /** The outputs of n resumptions, in order: the t-th is what resuming
      the session left by the first t produces. */
  function Outputs(x: Session, n: nat): (r: seq<Output>)
    requires SessionWellFormed(x)
    ensures |r| == n
  {
    seq(n, t requires 0 <= t < n => Step(Run(x, t)).0)
  }

  // ---------------------------------------------------------------------
  // One step

  /** What each caption means: "Done!" only for a solved grid, "I'm stuck!"
      only when no naked or hidden single is left, and the generator ends
      only once stopped. A step changes the state only by `do_init` or by a
      move that commits one candidate. */
  lemma StepMeaning(x: Session)
    requires SessionWellFormed(x)
    ensures var (out, y) := Step(x);
      (out == Frame(Some(DoneCaption)) ==> IsDone(x.state.grid) && y.state == x.state) &&
      (out == Frame(Some(StuckCaption)) ==>
        (x.phase == Seeded || x.phase == Moved) && NoSingles(x.state.cand) && y.state == x.state) &&
      (out == Exhausted <==> x.phase == Stopped) &&
      (y.phase == Stopped <==> x.phase == Stopped || (out.Frame? && out.caption.Some?)) &&
      (y.phase == Moved ==> y.state == Apply(x.state, NextMove(x.state.cand).value.move.i,
                                            NextMove(x.state.cand).value.move.j,
                                            NextMove(x.state.cand).value.move.k).1)
  {
    NextMoveSpec(x.state.cand);
  }

  /** A stopped session ends the generator and stays as it is. */
  lemma StepStopped(x: Session)
    requires SessionWellFormed(x) && x.phase == Stopped
    ensures Step(x) == (Exhausted, x)
  {
  }

  /** Once stopped, the session stays as it is. */
  lemma StoppedStays(x: Session, n: nat)
    requires SessionWellFormed(x) && x.phase == Stopped
    ensures Run(x, n) == x
  {
    var inv := (y: Session) => y == x;
    forall y | SessionWellFormed(y) && inv(y) ensures inv(Step(y).1) {
      StepStopped(y);
    }
    RunKeeps(inv, x, n);
  }

  /** Once stopped, every further resumption finds the generator
      exhausted. */
  lemma StoppedIsExhausted(x: Session, n: nat)
    requires SessionWellFormed(x) && x.phase == Stopped
    ensures forall t :: 0 <= t < n ==> Outputs(x, n)[t] == Exhausted
  {
    StepStopped(x);
    forall t | 0 <= t < n ensures Outputs(x, n)[t] == Exhausted {
      StoppedStays(x, t);
    }
  }

  /** A resumption only ever clears candidates. */
  lemma StepOnlyClears(x: Session)
    requires SessionWellFormed(x)
    ensures Subcube(Step(x).1.state.cand, x.state.cand)
  {
    match x.phase
    case Created =>
    case ShownInitial => SeedOnlyClears(x.state, 81);
    case Seeded => DeduceOnlyClears(x.state);
    case Moved => DeduceOnlyClears(x.state);
    case Stopped =>
  }

  /** Candidates only ever decrease along a run: every entry set after n
      resumptions was set at the start. */
  lemma RunOnlyClears(x: Session, n: nat)
    requires SessionWellFormed(x)
    ensures Subcube(Run(x, n).state.cand, x.state.cand)
  {
    var inv := (y: Session) => SessionWellFormed(y) && Subcube(y.state.cand, x.state.cand);
    forall y | SessionWellFormed(y) && inv(y) ensures inv(Step(y).1) {
      StepOnlyClears(y);
    }
    RunKeeps(inv, x, n);
  }

  // ---------------------------------------------------------------------
  // Termination

  /** One resumption inside the move loop either stops the session or
      fills one empty cell, keeping committed cells free of candidates; on a
      full grid it stops. */
  lemma LoopStep(x: Session)
    requires SessionWellFormed(x) && NoCandidatesOnFilled(x.state)
    requires x.phase == Seeded || x.phase == Moved
    ensures var y := Step(x).1;
      y.phase == Stopped ||
      (y.phase == Moved && NoCandidatesOnFilled(y.state) &&
       EmptyCount(y.state.grid) + 1 == EmptyCount(x.state.grid))
  {
    var s := x.state;
    if EmptyCount(s.grid) == 0 {
      NoEmptyIsFilled(s.grid);
      FullGridHasNoMove(s);
    } else if Deduce(s).0 {
      DeduceFillsOneCell(s);
    }
  }

  /** After n resumptions from the move loop, with no candidates on
      committed cells, the session has stopped, or it is still in the loop
      with at least n more cells filled. So it stops within one resumption
      more than there are empty cells, and within 82 resumptions: every
      successful move fills an empty cell, and on a full grid no rule
      matches. */
  lemma {:induction false} MovesProgress(x: Session, n: nat)
    requires SessionWellFormed(x) && NoCandidatesOnFilled(x.state)
    requires x.phase == Seeded || x.phase == Moved
    ensures var z := Run(x, n);
      z.phase == Stopped ||
      ((z.phase == Seeded || z.phase == Moved) && NoCandidatesOnFilled(z.state) &&
       EmptyCount(z.state.grid) + n <= EmptyCount(x.state.grid))
    ensures EmptyCount(x.state.grid) < n ==> Run(x, n).phase == Stopped
    ensures 81 < n ==> Run(x, n).phase == Stopped
    decreases n
  {
    if n > 0 {
      MovesProgress(x, n - 1);
      var z := Run(x, n - 1);
      if z.phase != Stopped {
        LoopStep(z);
      }
    }
  }

  // ---------------------------------------------------------------------
  // Sessions started from a generated puzzle

  /** `GameState(p_init)` followed by `animate()`, before the first
      resumption. */
  function Start(d: Generator.Draws): (x: Session)
    requires Generator.IsShuffled(d)
    ensures SessionWellFormed(x) && x.phase == Created
  {
    Generator.SolutionDigits(d);
    Generator.PuzzleAt(d, 0, 0);
    Session(Created, State(Generator.Puzzle(d), AllCandidates()))
  }

  /** What holds of every session reachable from a generated puzzle: before
      `do_init` the cube is full and the givens do not conflict; from then on
      the state is consistent (so the grid never breaks the rule of Sudoku
      and every candidate is a digit `is_valid` accepts). */
  ghost predicate Sound(x: Session)
    requires SessionWellFormed(x)
  {
    match x.phase
    case Created | ShownInitial => x.state.cand == AllCandidates() && NoConflicts(x.state.grid)
    case _ => Consistent(x.state)
  }

  /** Every step keeps the session sound. */
  lemma StepKeepsSound(x: Session)
    requires SessionWellFormed(x) && Sound(x)
    ensures Sound(Step(x).1)
  {
    match x.phase
    case Created =>
    case ShownInitial =>
      SeedFromGivens(x.state.grid);
      assert x.state == State(x.state.grid, AllCandidates());
    case Seeded =>
      DeduceKeepsConsistent(x.state);
    case Moved =>
      DeduceKeepsConsistent(x.state);
    case Stopped =>
  }

  /** A property of sessions that every step keeps holds all along a run. */
  lemma {:induction false} RunKeeps(inv: Session -> bool, x: Session, n: nat)
    requires SessionWellFormed(x) && inv(x)
    requires forall y :: SessionWellFormed(y) && inv(y) ==> inv(Step(y).1)
    ensures inv(Run(x, n))
    decreases n
  {
    if n > 0 {
      RunKeeps(inv, x, n - 1);
      assert Run(x, n) == Step(Run(x, n - 1)).1;
    }
  }

  /** Hence every session along the run is sound. */
  lemma RunKeepsSound(x: Session, n: nat)
    requires SessionWellFormed(x) && Sound(x)
    ensures Sound(Run(x, n))
  {
    var inv := (y: Session) => SessionWellFormed(y) && Sound(y);
    forall y | SessionWellFormed(y) && inv(y) ensures inv(Step(y).1) {
      StepKeepsSound(y);
    }
    RunKeeps(inv, x, n);
  }

  /** The first two resumptions on a generated puzzle show it and seed the
      candidates, which leaves a consistent state on the same grid. */
  lemma StartSeeds(d: Generator.Draws)
    requires Generator.IsShuffled(d)
    ensures var y := Run(Start(d), 2);
      y.phase == Seeded && IsGrid(Generator.Puzzle(d)) && y.state.grid == Generator.Puzzle(d) && Consistent(y.state)
  {
    Generator.PuzzleHasNoConflicts(d);
    SeedFromGivens(Generator.Puzzle(d));
  }

  /** After the two opening resumptions, the session on a generated puzzle
      stops within `n_remove + 1` more (one per filled cell, one for the
      final caption), and the grid it ends with breaks no rule of Sudoku. */
  lemma GeneratedSessionStops(p: Generator.Ratio, d: Generator.Draws)
    requires Generator.ValidDraws(p, d) && Generator.HintCount(p) <= 81
    ensures var y := Run(Run(Start(d), 2), 82 - Generator.HintCount(p));
      y.phase == Stopped && NoConflicts(y.state.grid)
  {
    var seeded := Run(Start(d), 2);
    StartSeeds(d);
    Generator.PuzzleHintCount(p, d);
    MovesProgress(seeded, 82 - Generator.HintCount(p));
    RunKeepsSound(seeded, 82 - Generator.HintCount(p));
  }

  /** Right after `do_init` on a full grid, the first move finds nothing:
      the generator says "I'm stuck!" and stops. */
  lemma FullGridIsStuck(x: Session)
    requires SessionWellFormed(x) && x.phase == Seeded
    requires NoCandidatesOnFilled(x.state) && Filled(x.state.grid)
    ensures Step(x) == (Frame(Some(StuckCaption)), Session(Stopped, x.state))
  {
    FullGridHasNoMove(x.state);
  }

  /** A puzzle with nothing removed, which `generate` would return for
      `p_init = 1` were it not to raise, is solved, yet its session does not
      end with "Done!": the grid is full, so the first move finds no single,
      and because `is_done` is only consulted after a successful move the
      third frame says "I'm stuck!". */
  lemma FullPuzzleEndsStuck(d: Generator.Draws)
    requires Generator.IsShuffled(d) && d.removed == []
    ensures IsGrid(Run(Start(d), 2).state.grid) && IsDone(Run(Start(d), 2).state.grid)
    ensures Outputs(Start(d), 4) == [Frame(None), Frame(None), Frame(Some(StuckCaption)), Exhausted]
  {
    var x := Start(d);
    StartSeeds(d);
    Generator.NothingRemovedIsSolved(d);
    var x1 := Run(x, 1);
    var x2 := Run(x, 2);
    var x3 := Run(x, 3);
    assert x1 == Step(x).1 && x2 == Step(x1).1 && x3 == Step(x2).1;
    FullGridIsStuck(x2);
    StepStopped(x3);
    assert Run(x, 0) == x;
    var outs := Outputs(x, 4);
    assert outs[0] == Step(x).0 && outs[1] == Step(x1).0 && outs[2] == Step(x2).0 && outs[3] == Step(x3).0;
  }

  // ---------------------------------------------------------------------
  // The generator over a live `GameState`

  /** `animate()` on a `GameState`: the game it plays and where it is
      suspended. */
  class Animation {
    const game: Game.GameState
    var phase: Phase

    ghost predicate Valid()
      reads this, game, game.grid
    {
      game.Valid()
    }

    /** The session as a value. */
    ghost function Current(): (x: Session)
      reads this, game, game.grid, game.cand
      requires Valid()
      ensures SessionWellFormed(x)
    {
      Session(phase, game.State())
    }

    /** `game.animate()`: nothing runs before the first resumption. */
    constructor (g: Game.GameState)
      requires g.Valid()
      ensures Valid() && game == g && phase == Created
    {
      game := g;
      phase := Created;
    }

    /** One resumption (`next()`) of the generator. */
    method Next() returns (out: Output)
      requires Valid()
      modifies this, game.grid, game.cand
      ensures Valid()
      ensures (out, Current()) == Step(old(Current()))
    {
      match phase
      case Created =>
        out := Frame(None);
        phase := ShownInitial;
      case ShownInitial =>
        game.DoInit();
        out := Frame(None);
        phase := Seeded;
      case Seeded =>
        out := Play();
      case Moved =>
        if IsDone(game.Grid()) {
          out := Frame(Some(DoneCaption));
          phase := Stopped;
        } else {
          out := Play();
        }
      case Stopped =>
        out := Exhausted;
    }

    /** One pass of the `while True` body up to its `yield`. */
    method Play() returns (out: Output)
      requires Valid()
      modifies this, game.grid, game.cand
      ensures Valid()
      ensures (out, Current()) == Attempt(old(game.State()))
    {
      var ok := game.DoMove();
      if ok {
        out := Frame(None);
        phase := Moved;
      } else {
        out := Frame(Some(StuckCaption));
        phase := Stopped;
      }
    }
  }
}
