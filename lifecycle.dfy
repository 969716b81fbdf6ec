/** The observable state of a game as a value, and the effect of each
    operation of the engine on it: construction, start, stop, reseed and one
    generation. The class in module Engine is proved to follow these
    functions exactly. */
module Lifecycle {
  import opened Grid
  import opened Life

  datatype GameState = Ready | Running | Stasis | Finished

  /** The two reasons construction fails (the message text is not modelled). */
  datatype InitError = ZeroSize | NonBinarySeed

  datatype Option<T> = None | Some(value: T)

  datatype Result<T, E> = Success(value: T) | Failure(error: E)

  /** Every field of a game. boardSize is (columns, rows). */
  datatype Snapshot = Snapshot(
    boardSize: (int, int),
    enforceBoundary: bool,
    seed: Board,
    currentBoard: Board,
    previousBoard: Option<Board>,
    generations: int,
    liveCells: int,
    state: GameState)

  /** What holds of every game the operations can produce. The live count is
      that of the current board, except after a step that detected a 2-cycle:
      there it is the count of the board that step computed and did not
      install. */
  predicate Wf(s: Snapshot) {
    var (columns, rows) := s.boardSize;
    IsBoardOf(s.seed, columns, rows) &&
    IsBoardOf(s.currentBoard, columns, rows) &&
    (s.previousBoard.Some? ==> IsBoardOf(s.previousBoard.value, columns, rows)) &&
    s.generations >= 0 &&
    (s.liveCells == CountLive(s.currentBoard) ||
     (s.state == Stasis && s.liveCells == CountLive(NextBoard(s.currentBoard, s.enforceBoundary))))
  }

  /** What the constructor demands of its caller: a given seed has a first
      row and rows of equal length, and the random source, when it is used,
      yields a 0/1 grid of the requested size. */
  predicate InitRequires(columns: int, rows: int, seed: Option<Board>, random: bool, randomGrid: Board) {
    (seed.Some? ==> |seed.value| > 0 && Rectangular(seed.value)) &&
    (seed.None? && random && columns != 0 && rows != 0 ==> IsBoardOf(randomGrid, columns, rows))
  }

  /** Construction. Without a seed only zero sizes are refused; with one, the
      seed's own dimensions win and every cell must be 0 or 1. */
  function Init(columns: int, rows: int, seed: Option<Board>, random: bool, randomGrid: Board,
                enforceBoundary: bool): Result<Snapshot, InitError>
    requires InitRequires(columns, rows, seed, random, randomGrid)
  {
    match seed
    case None =>
      if columns == 0 || rows == 0 then Failure(ZeroSize)
      else if random then
        Success(Snapshot((columns, rows), enforceBoundary, randomGrid, randomGrid, None, 0,
                         CountLive(randomGrid), Ready))
      else
        // the live count keeps its initial value 0 on this path
        Success(Snapshot((columns, rows), enforceBoundary, Zeros(columns, rows), Zeros(columns, rows),
                         None, 0, 0, Ready))
    case Some(s) =>
      var size := if |s| != rows || |s[0]| != columns then (|s[0]|, |s|) else (columns, rows);
      if !IsBinary(s) then Failure(NonBinarySeed)
      else Success(Snapshot(size, enforceBoundary, s, s, None, 0, CountLive(s), Ready))
  }

  function Start(s: Snapshot): Snapshot {
    s.(currentBoard := s.seed, state := Running, generations := 0, liveCells := CountLive(s.seed))
  }

  function Stop(s: Snapshot): Snapshot {
    if s.state == Running then s.(state := Finished, liveCells := CountLive(s.currentBoard)) else s
  }

  /** randomGrid stands for the fresh random seed. */
  function Reseed(s: Snapshot, randomGrid: Board): Snapshot {
    if s.state != Running then
      s.(seed := randomGrid, liveCells := CountLive(randomGrid), currentBoard := randomGrid, state := Ready)
    else s
  }

  /** One generation. A fixed point or a return to the previous board sets
      Stasis and leaves both boards as they were; otherwise the boards move
      on and the state is left alone. The live count is that of the computed
      board, which is what the source's recount-plus-deltas gives on 0/1
      boards (every board of a well-formed game is one); on a board holding
      another value the source's deltas would differ, as a cell holding 2
      that is born adds nothing there. */
  function Step(s: Snapshot): Snapshot
    requires Rectangular(s.currentBoard)
  {
    if s.state != Running && s.state != Stasis then s
    else
      var next := NextBoard(s.currentBoard, s.enforceBoundary);
      var counted := s.(generations := s.generations + 1, liveCells := CountLive(next));
      if s.currentBoard == next then counted.(state := Stasis)
      else if s.previousBoard == Some(next) then counted.(state := Stasis)
      else counted.(previousBoard := Some(s.currentBoard), currentBoard := next)
  }

  /** k generations in a row. */
  function Run(s: Snapshot, k: nat): Snapshot
    requires Wf(s)
    decreases k
  {
    if k == 0 then s else StepWf(s); Run(Step(s), k - 1)
  }

  // ---------------------------------------------------------------------
  // Construction

  /** Without a seed: refused exactly when a size is 0 (negative sizes are
      accepted and give an empty board); otherwise the seed has the requested
      shape and is all zeros unless a random one was asked for. */
  lemma InitWithoutSeed(columns: int, rows: int, random: bool, randomGrid: Board, enforceBoundary: bool)
    requires InitRequires(columns, rows, None, random, randomGrid)
    ensures var r := Init(columns, rows, None, random, randomGrid, enforceBoundary);
      (r.Failure? <==> columns == 0 || rows == 0) &&
      (r.Failure? ==> r.error == ZeroSize) &&
      (r.Success? ==>
        r.value.boardSize == (columns, rows) &&
        HasShape(r.value.seed, columns, rows) &&
        (random ==> r.value.seed == randomGrid) &&
        (!random ==> IsDead(r.value.seed)) &&
        r.value.currentBoard == r.value.seed &&
        r.value.liveCells == CountLive(r.value.currentBoard) &&
        r.value.previousBoard == None && r.value.generations == 0 && r.value.state == Ready)
  {
    if columns != 0 && rows != 0 && !random {
      CountLiveDead(Zeros(columns, rows));
    }
  }

  /** With a seed: refused exactly when a cell is neither 0 nor 1; otherwise
      the board size is the seed's own and the game starts from the seed. */
  lemma InitWithSeed(columns: int, rows: int, seed: Board, random: bool, randomGrid: Board, enforceBoundary: bool)
    requires InitRequires(columns, rows, Some(seed), random, randomGrid)
    ensures var r := Init(columns, rows, Some(seed), random, randomGrid, enforceBoundary);
      (r.Failure? <==> !IsBinary(seed)) &&
      (r.Failure? ==> r.error == NonBinarySeed) &&
      (r.Success? ==>
        r.value.boardSize == (|seed[0]|, |seed|) &&
        r.value.seed == seed && r.value.currentBoard == seed &&
        r.value.liveCells == CountLive(seed) &&
        r.value.previousBoard == None && r.value.generations == 0 && r.value.state == Ready)
  {
  }

  lemma InitWf(columns: int, rows: int, seed: Option<Board>, random: bool, randomGrid: Board, enforceBoundary: bool)
    requires InitRequires(columns, rows, seed, random, randomGrid)
    requires Init(columns, rows, seed, random, randomGrid, enforceBoundary).Success?
    ensures Wf(Init(columns, rows, seed, random, randomGrid, enforceBoundary).value)
  {
    if seed.None? && !random {
      CountLiveDead(Zeros(columns, rows));
    }
  }

  // ---------------------------------------------------------------------
  // start, stop, reseed

  /** start puts the seed back, whatever came before: two starts are one, and
      games that share a seed agree after start on everything but the
      previous board, which start does not clear. */
  lemma StartResets(s: Snapshot, t: Snapshot)
    requires s.seed == t.seed && s.boardSize == t.boardSize && s.enforceBoundary == t.enforceBoundary
    ensures Start(Start(s)) == Start(s)
    ensures Start(s).currentBoard == s.seed && Start(s).generations == 0 && Start(s).state == Running
    ensures Start(s).liveCells == CountLive(Start(s).currentBoard)
    ensures Start(s).previousBoard == s.previousBoard
    ensures Start(t) == Start(s).(previousBoard := t.previousBoard)
  {
  }

  /** Over any number of generations start still restores the same game,
      apart from the previous board. */
  lemma StartAfterRun(s: Snapshot, k: nat)
    requires Wf(s)
    ensures Start(Run(s, k)) == Start(s).(previousBoard := Run(s, k).previousBoard)
  {
    RunKeepsSetup(s, k);
  }

  /** stop acts only on a running game, which it finishes with a recounted
      live count; on any other state it changes nothing, Stasis included. */
  lemma StopOnlyFromRunning(s: Snapshot)
    ensures s.state != Running ==> Stop(s) == s
    ensures s.state == Running ==>
      Stop(s).state == Finished && Stop(s).liveCells == CountLive(s.currentBoard) &&
      Stop(s).currentBoard == s.currentBoard && Stop(s).generations == s.generations
    ensures Stop(Stop(s)) == Stop(s)
  {
  }

  /** reseed is ignored while running; otherwise the new grid becomes both the
      seed and the current board, the game is Ready, and the count is exact. */
  lemma ReseedInstalls(s: Snapshot, randomGrid: Board)
    ensures s.state == Running ==> Reseed(s, randomGrid) == s
    ensures s.state != Running ==>
      Reseed(s, randomGrid).seed == randomGrid && Reseed(s, randomGrid).currentBoard == randomGrid &&
      Reseed(s, randomGrid).state == Ready &&
      Reseed(s, randomGrid).liveCells == CountLive(Reseed(s, randomGrid).currentBoard) &&
      Reseed(s, randomGrid).generations == s.generations &&
      Reseed(s, randomGrid).previousBoard == s.previousBoard
  {
  }

  // ---------------------------------------------------------------------
  // One generation

  /** Outside Running and Stasis a step changes nothing at all. */
  lemma StepInactive(s: Snapshot)
    requires Rectangular(s.currentBoard) && s.state != Running && s.state != Stasis
    ensures Step(s) == s
  {
  }

  /** An active step counts one generation and the live cells of the board it
      computed; it reports Stasis, keeping both boards, exactly when that
      board is the current or the previous one, and otherwise moves the
      boards on without touching the state. */
  lemma StepEffect(s: Snapshot)
    requires Rectangular(s.currentBoard) && (s.state == Running || s.state == Stasis)
    ensures var next, t := NextBoard(s.currentBoard, s.enforceBoundary), Step(s);
      t.generations == s.generations + 1 &&
      t.liveCells == CountLive(next) &&
      t.seed == s.seed && t.boardSize == s.boardSize && t.enforceBoundary == s.enforceBoundary &&
      ((next == s.currentBoard || s.previousBoard == Some(next)) ==>
         t.state == Stasis && t.currentBoard == s.currentBoard && t.previousBoard == s.previousBoard) &&
      ((next != s.currentBoard && s.previousBoard != Some(next)) ==>
         t.state == s.state && t.currentBoard == next && t.previousBoard == Some(s.currentBoard))
  {
  }

  /** Every operation keeps Wf. */
  lemma StepWf(s: Snapshot)
    requires Wf(s)
    ensures Wf(Step(s))
  {
    var (columns, rows) := s.boardSize;
    if s.state == Running || s.state == Stasis {
      var next := NextBoard(s.currentBoard, s.enforceBoundary);
      assert HasShape(next, columns, rows);
    }
  }

  lemma LifecycleWf(s: Snapshot, randomGrid: Board)
    requires Wf(s) && IsBoardOf(randomGrid, s.boardSize.0, s.boardSize.1)
    ensures Wf(Start(s)) && Wf(Stop(s)) && Wf(Reseed(s, randomGrid))
  {
  }

  lemma {:induction false} RunKeepsSetup(s: Snapshot, k: nat)
    requires Wf(s)
    ensures Wf(Run(s, k))
    ensures Run(s, k).seed == s.seed && Run(s, k).boardSize == s.boardSize
    ensures Run(s, k).enforceBoundary == s.enforceBoundary
    decreases k
  {
    if k > 0 {
      StepWf(s);
      var t := Step(s);
      assert t.seed == s.seed && t.boardSize == s.boardSize && t.enforceBoundary == s.enforceBoundary;
      RunKeepsSetup(t, k - 1);
      assert Run(s, k) == Run(t, k - 1);
    }
  }

  /** Stasis is never left by stepping: the branch that moves the boards on
      does not set Running again, and stop ignores Stasis, so only start and
      reseed leave it. */
  lemma StasisPersists(s: Snapshot, k: nat)
    requires Wf(s) && s.state == Stasis
    ensures Run(s, k).state == Stasis
    ensures Stop(s) == s
    decreases k
  {
    if k > 0 {
      StepWf(s);
      StasisPersists(Step(s), k - 1);
    }
  }

  /** Once a step has detected stasis the board is frozen: the current and the
      previous board no longer change, so each further step only counts
      another generation. In particular a 2-cycle does not keep alternating. */
  lemma FrozenAfterStasis(s: Snapshot, k: nat)
    requires Wf(s) && (s.state == Running || s.state == Stasis)
    requires Step(s).currentBoard == s.currentBoard
    ensures Run(Step(s), k) == Step(s).(generations := Step(s).generations + k)
  {
    var t := DetectStep(s);
    FrozenRun(t, k);
  }

  /** A step that keeps the board is one that detected stasis. */
  lemma DetectStep(s: Snapshot) returns (t: Snapshot)
    requires Wf(s) && (s.state == Running || s.state == Stasis)
    requires Step(s).currentBoard == s.currentBoard
    ensures t == Step(s) && Frozen(t)
  {
    StepWf(s);
    t := Step(s);
  }

  /** From a detected stasis, k generations only add k to the counter. */
  lemma FrozenRun(t: Snapshot, k: nat)
    requires Frozen(t)
    ensures Run(t, k) == t.(generations := t.generations + k)
  {
    FrozenRunFrom(t, t.generations, k);
    assert t.(generations := t.generations) == t;
  }

  lemma {:induction false} FrozenRunFrom(t: Snapshot, n: int, k: nat)
    requires Frozen(t) && n >= 0
    ensures Wf(t.(generations := n))
    ensures Run(t.(generations := n), k) == t.(generations := n + k)
    decreases k
  {
    FrozenStep(t, n);
    if k > 0 {
      FrozenRunFrom(t, n + 1, k - 1);
    }
  }

  /** A well-formed game in a Stasis that its next step would detect again. */
  predicate Frozen(t: Snapshot) {
    Wf(t) && t.state == Stasis &&
    var next := NextBoard(t.currentBoard, t.enforceBoundary);
    (next == t.currentBoard || t.previousBoard == Some(next)) && t.liveCells == CountLive(next)
  }

  /** Whatever the counter says, a step from a detected stasis only counts a
      generation. */
  lemma FrozenStep(t: Snapshot, n: int)
    requires Frozen(t) && n >= 0
    ensures Wf(t.(generations := n))
    ensures Step(t.(generations := n)) == t.(generations := n + 1)
  {
  }

  /** A board that returns after two generations is caught on the second. */
  lemma TwoCycleDetected(s: Snapshot)
    requires Wf(s) && (s.state == Running || s.state == Stasis)
    requires var next := NextBoard(s.currentBoard, s.enforceBoundary);
      next != s.currentBoard && s.previousBoard != Some(next) &&
      NextBoard(next, s.enforceBoundary) == s.currentBoard
    ensures Step(Step(s)).state == Stasis
    ensures Step(Step(s)).currentBoard == NextBoard(s.currentBoard, s.enforceBoundary)
  {
    StepWf(s);
  }

  /** Start and reseed keep the previous board of an earlier game: when the
      new seed's successor happens to be that board, the first step reports
      Stasis, leaves the new seed in place and counts the successor's live
      cells instead of the board's. */
  lemma StalePreviousBoard(s: Snapshot, g: Board)
    requires Wf(s) && s.state != Running && IsBoardOf(g, s.boardSize.0, s.boardSize.1)
    requires s.previousBoard.Some? && NextBoard(g, s.enforceBoundary) == s.previousBoard.value
    requires NextBoard(g, s.enforceBoundary) != g
    ensures var t := Step(Start(Reseed(s, g)));
      t.state == Stasis && t.currentBoard == g && t.previousBoard == s.previousBoard &&
      t.generations == 1 && t.liveCells == CountLive(s.previousBoard.value)
  {
  }

  /** A running game whose board is empty reaches Stasis in one step, with no
      live cells, whatever the edge policy. */
  lemma DeadBoardStasis(s: Snapshot)
    requires Wf(s) && s.state == Running && IsDead(s.currentBoard)
    ensures Step(s).state == Stasis && Step(s).liveCells == 0 && Step(s).currentBoard == s.currentBoard
  {
    DeadBoardIsFixedPoint(s.currentBoard, s.enforceBoundary);
    CountLiveDead(s.currentBoard);
  }

  /** Away from Stasis the live count is that of the current board. */
  lemma LiveCellsExact(s: Snapshot, k: nat)
    requires Wf(s) && Run(s, k).state != Stasis
    ensures Run(s, k).liveCells == CountLive(Run(s, k).currentBoard)
  {
    RunKeepsSetup(s, k);
  }
}
