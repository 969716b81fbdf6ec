/** Worked games on small boards: what the engine does with a still life, an
    oscillator, a board too small for its torus, and a previous board left
    over from an earlier game. */
module Scenarios {
  import opened Grid
  import opened Life
  import opened Lifecycle

  /** Reduces an equation between NextBoard and a given board to its cells. */
  lemma NextBoardIs(b: Board, enforceBoundary: bool, expected: Board)
    requires Rectangular(b) && |expected| == |b|
    requires forall i :: 0 <= i < |b| ==> |expected[i]| == |b[i]|
    requires forall i, j :: 0 <= i < |b| && 0 <= j < |b[i]| ==>
      NextCell(b[i][j], NeighborCount(b, i, j, enforceBoundary)) == expected[i][j]
    ensures NextBoard(b, enforceBoundary) == expected
  {
    var nb := NextBoard(b, enforceBoundary);
    forall i | 0 <= i < |b| ensures nb[i] == expected[i] {
    }
  }

  // ---------------------------------------------------------------------
  // Boards

  const Empty3: Board := [[0, 0, 0], [0, 0, 0], [0, 0, 0]]
  const Dot: Board := [[0, 0, 0], [0, 1, 0], [0, 0, 0]]
  const Corners: Board := [[1, 0, 1], [0, 0, 0], [1, 0, 0]]
  const RowBlinker: Board := [[0, 0, 0], [1, 1, 1], [0, 0, 0]]
  const ColumnBlinker: Board := [[0, 1, 0], [0, 1, 0], [0, 1, 0]]
  const Block: Board := [[1, 1, 0], [1, 1, 0], [0, 0, 0]]

  lemma Shapes()
    ensures IsBoardOf(Empty3, 3, 3) && IsBoardOf(Dot, 3, 3) && IsBoardOf(Corners, 3, 3)
    ensures IsBoardOf(RowBlinker, 3, 3) && IsBoardOf(ColumnBlinker, 3, 3) && IsBoardOf(Block, 3, 3)
  {
  }

  lemma DotCounts()
    ensures CountLive(Dot) == 1 && CountLive(Corners) == 3
  {
  }

  lemma BlockCount()
    ensures CountLive(Block) == 4
  {
  }

  lemma DotVanishes(b: Board, c: Board)
    requires b == Dot && c == Empty3
    ensures NextBoard(b, true) == c
  {
    forall i, j | 0 <= i < 3 && 0 <= j < 3
      ensures NextCell(b[i][j], NeighborCount(b, i, j, true)) == c[i][j]
    {
      BoundedCountIsSum(b, i, j);
      assert i == 0 || i == 1 || i == 2;
      assert j == 0 || j == 1 || j == 2;
    }
    NextBoardIs(b, true, c);
  }

  lemma CornersGiveDot(b: Board, c: Board)
    requires b == Corners && c == Dot
    ensures NextBoard(b, true) == c
  {
    forall i, j | 0 <= i < 3 && 0 <= j < 3
      ensures NextCell(b[i][j], NeighborCount(b, i, j, true)) == c[i][j]
    {
      BoundedCountIsSum(b, i, j);
      assert i == 0 || i == 1 || i == 2;
      assert j == 0 || j == 1 || j == 2;
    }
    NextBoardIs(b, true, c);
  }

  lemma BlinkerTurns(b: Board, c: Board)
    requires b == RowBlinker && c == ColumnBlinker
    ensures NextBoard(b, true) == c
  {
    forall i, j | 0 <= i < 3 && 0 <= j < 3
      ensures NextCell(b[i][j], NeighborCount(b, i, j, true)) == c[i][j]
    {
      BoundedCountIsSum(b, i, j);
      assert i == 0 || i == 1 || i == 2;
      assert j == 0 || j == 1 || j == 2;
    }
    NextBoardIs(b, true, c);
  }

  lemma BlinkerTurnsBack(b: Board, c: Board)
    requires b == ColumnBlinker && c == RowBlinker
    ensures NextBoard(b, true) == c
  {
    forall i, j | 0 <= i < 3 && 0 <= j < 3
      ensures NextCell(b[i][j], NeighborCount(b, i, j, true)) == c[i][j]
    {
      BoundedCountIsSum(b, i, j);
      assert i == 0 || i == 1 || i == 2;
      assert j == 0 || j == 1 || j == 2;
    }
    NextBoardIs(b, true, c);
  }

  lemma BlockIsStillLife(b: Board)
    requires b == Block
    ensures NextBoard(b, true) == b
  {
    forall i, j | 0 <= i < 3 && 0 <= j < 3
      ensures NextCell(b[i][j], NeighborCount(b, i, j, true)) == b[i][j]
    {
      BoundedCountIsSum(b, i, j);
      assert i == 0 || i == 1 || i == 2;
      assert j == 0 || j == 1 || j == 2;
    }
    NextBoardIs(b, true, b);
  }

  /** A game built from a 3x3 seed with walls. */
  lemma SeededGame(b: Board)
    requires b == Dot || b == RowBlinker || b == Block
    ensures Init(3, 3, Some(b), false, [], true) == Success(Snapshot((3, 3), true, b, b, None, 0, CountLive(b), Ready))
    ensures Wf(Snapshot((3, 3), true, b, b, None, 0, CountLive(b), Ready))
  {
    Shapes();
  }

  // ---------------------------------------------------------------------
  // Step by step, on any board

  /** A fresh game whose seed moves on has, after one generation, the seed as
      previous board and its successor as current board. */
  lemma FirstStep(s0: Snapshot, b: Board, c: Board) returns (s1: Snapshot)
    requires Wf(s0) && s0.seed == b && s0.previousBoard == None
    requires NextBoard(b, s0.enforceBoundary) == c && b != c
    ensures s1 == Step(Start(s0)) && Wf(s1)
    ensures s1 == s0.(currentBoard := c, previousBoard := Some(b), generations := 1,
                      liveCells := CountLive(c), state := Running)
  {
    LifecycleWf(s0, b);
    StepWf(Start(s0));
    s1 := Step(Start(s0));
  }

  /** A running game whose successor is its previous board reports Stasis. */
  lemma SecondStep(s1: Snapshot, b: Board, c: Board) returns (s2: Snapshot)
    requires Wf(s1) && s1.state == Running && s1.currentBoard == c && s1.previousBoard == Some(b)
    requires NextBoard(c, s1.enforceBoundary) == b && b != c
    ensures s2 == Step(s1) && Wf(s2)
    ensures s2 == s1.(generations := s1.generations + 1, liveCells := CountLive(b), state := Stasis)
  {
    StepWf(s1);
    s2 := Step(s1);
  }

  // ---------------------------------------------------------------------
  // Games

  /** A game on the lone dot runs one generation, in which the dot dies and
      becomes the previous board, and is stopped. */
  lemma DotGameFinishes()
    ensures var s0 := Init(3, 3, Some(Dot), false, [], true);
      s0.Success? && Wf(s0.value) &&
      var s1 := Stop(Step(Start(s0.value)));
      Wf(s1) && s1.state == Finished && s1.currentBoard == Empty3 && s1.previousBoard == Some(Dot) &&
      s1.boardSize == (3, 3) && s1.enforceBoundary
  {
    SeededGame(Dot);
    var s0 := Snapshot((3, 3), true, Dot, Dot, None, 0, CountLive(Dot), Ready);
    DotVanishes(Dot, Empty3);
    assert Dot[1][1] != Empty3[1][1];
    var t := FirstStep(s0, Dot, Empty3);
    LifecycleWf(t, Dot);
  }

  /** Neither start nor reseed clears the previous board. A finished game
      whose previous board is the dot (such as the one above), reseeded with
      three corners, whose successor is that dot, and started again, declares
      Stasis on its first step although the board has no period 2, installs
      nothing, and leaves a live count of 1 beside a board holding 3 live
      cells. */
  lemma StaleHistoryFalseStasis(s1: Snapshot)
    requires Wf(s1) && s1.state == Finished && s1.previousBoard == Some(Dot)
    requires s1.boardSize == (3, 3) && s1.enforceBoundary
    ensures var s2 := Step(Start(Reseed(s1, Corners)));
      s2.state == Stasis && s2.currentBoard == Corners && s2.generations == 1 &&
      s2.liveCells == 1 && CountLive(s2.currentBoard) == 3
  {
    Shapes();
    CornersGiveDot(Corners, Dot);
    assert Corners[0][0] != Dot[0][0];
    StalePreviousBoard(s1, Corners);
    DotCounts();
  }

  /** A blinker with walls: the first generation turns it, the second finds
      the previous board again and reports Stasis, and from then on the
      board stays put, only the generation counter moving on; it does not go
      on alternating. */
  lemma BlinkerFreezes(k: nat)
    ensures var s0 := Init(3, 3, Some(RowBlinker), false, [], true);
      s0.Success? && Wf(s0.value) &&
      var s1 := Step(Start(s0.value));
      var s2 := Step(s1);
      s1.state == Running && s1.currentBoard == ColumnBlinker &&
      s2.state == Stasis && s2.currentBoard == ColumnBlinker && s2.generations == 2 &&
      Wf(s2) && Run(s2, k) == s2.(generations := 2 + k)
  {
    var s2 := BlinkerTrace();
    FrozenRun(s2, k);
  }

  lemma BlinkerTrace() returns (s2: Snapshot)
    ensures var s0 := Snapshot((3, 3), true, RowBlinker, RowBlinker, None, 0, CountLive(RowBlinker), Ready);
      Init(3, 3, Some(RowBlinker), false, [], true) == Success(s0) && Wf(s0) &&
      var s1 := Step(Start(s0));
      s1.state == Running && s1.currentBoard == ColumnBlinker && s2 == Step(s1)
    ensures Frozen(s2) && s2.currentBoard == ColumnBlinker && s2.generations == 2
  {
    SeededGame(RowBlinker);
    var s0 := Snapshot((3, 3), true, RowBlinker, RowBlinker, None, 0, CountLive(RowBlinker), Ready);
    BlinkerTurns(RowBlinker, ColumnBlinker);
    BlinkerTurnsBack(ColumnBlinker, RowBlinker);
    assert RowBlinker[0][1] != ColumnBlinker[0][1];
    var s1 := FirstStep(s0, RowBlinker, ColumnBlinker);
    s2 := SecondStep(s1, RowBlinker, ColumnBlinker);
  }

  /** The block is a still life: one generation leaves it unchanged and
      the game reports Stasis with the block's 4 live cells. */
  lemma BlockGame()
    ensures var s := Init(3, 3, Some(Block), false, [], true);
      s.Success? && Step(Start(s.value)).state == Stasis && Step(Start(s.value)).currentBoard == Block &&
      Step(Start(s.value)).liveCells == 4
  {
    SeededGame(Block);
    BlockIsStillLife(Block);
    BlockCount();
  }

  // ---------------------------------------------------------------------
  // The torus on a board smaller than the neighbourhood

  /** On a 2x2 torus the wrapped candidates land on the four cells more than
      once: a full board, a still life with walls, has every cell counting 8
      live neighbours and dies out. */
  lemma FullTwoByTwo(b: Board)
    requires b == [[1, 1], [1, 1]]
    ensures NextBoard(b, true) == b
    ensures NextBoard(b, false) == [[0, 0], [0, 0]]
  {
    forall i, j | 0 <= i < 2 && 0 <= j < 2
      ensures NextCell(b[i][j], NeighborCount(b, i, j, true)) == b[i][j]
    {
      BoundedCountIsSum(b, i, j);
      assert i == 0 || i == 1;
      assert j == 0 || j == 1;
    }
    NextBoardIs(b, true, b);
    TorusTwoByTwo(b);
  }

  lemma TorusTwoByTwo(b: Board)
    requires b == [[1, 1], [1, 1]]
    ensures forall i, j :: 0 <= i < 2 && 0 <= j < 2 ==> NeighborCount(b, i, j, false) == 8
    ensures NextBoard(b, false) == [[0, 0], [0, 0]]
  {
    var dead: Board := [[0, 0], [0, 0]];
    forall i, j | 0 <= i < 2 && 0 <= j < 2
      ensures NeighborCount(b, i, j, false) == 8
      ensures NextCell(b[i][j], NeighborCount(b, i, j, false)) == dead[i][j]
    {
      TorusCellCount(b, i, j);
      assert dead[i][j] == 0;
    }
    NextBoardIs(b, false, dead);
  }

  /** Each of the eight wrapped candidates of a cell of the full 2x2 torus
      is a live cell. */
  lemma TorusCellCount(b: Board, i: int, j: int)
    requires b == [[1, 1], [1, 1]] && 0 <= i < 2 && 0 <= j < 2
    ensures NeighborCount(b, i, j, false) == 8
  {
    CountOverEight(b, NeighborCoords(i, j), false);
    WrapStep(i - 1, 2);
    WrapStep(i + 1, 2);
    WrapStep(j - 1, 2);
    WrapStep(j + 1, 2);
  }
}
