/** The Game class of py_conway: fields updated in place by its methods, each
    method proved to have exactly the effect that module Lifecycle gives the
    corresponding operation. */
module Engine {
  import opened Grid
  import opened Life
  import L = Lifecycle

  class Game {
    var boardSize: (int, int)  // (columns, rows)
    var enforceBoundary: bool
    var seed: Board
    var currentBoard: Board
    var previousBoard: L.Option<Board>
    var generations: int
    var liveCells: int
    var state: L.GameState

    /** The fields as one value. */
    ghost function Model(): L.Snapshot
      reads this
    {
      L.Snapshot(boardSize, enforceBoundary, seed, currentBoard, previousBoard, generations, liveCells, state)
    }

    ghost predicate Valid()
      reads this
    {
      L.Wf(Model())
    }

    /** The non-raising part of __init__: the caller has checked the inputs
        (see Create). */
    constructor (columns: int, rows: int, seed: L.Option<Board>, random: bool, randomGrid: Board,
                 enforceBoundary: bool)
      requires L.InitRequires(columns, rows, seed, random, randomGrid)
      requires L.Init(columns, rows, seed, random, randomGrid, enforceBoundary).Success?
      ensures Valid()
      ensures Model() == L.Init(columns, rows, seed, random, randomGrid, enforceBoundary).value
    {
      var size := (columns, rows);
      var initialSeed: Board;
      var live := 0;
      match seed {
        case None =>
          if random {
            initialSeed := randomGrid;
            live := CountLive(initialSeed);
          } else {
            initialSeed := Zeros(columns, rows);
          }
        case Some(s) =>
          if |s| != rows || |s[0]| != columns {
            size := (|s[0]|, |s|);
          }
          initialSeed := s;
          live := CountLive(initialSeed);
      }
      boardSize := size;
      this.enforceBoundary := enforceBoundary;
      previousBoard := L.None;
      this.seed := initialSeed;
      currentBoard := initialSeed;
      generations := 0;
      liveCells := live;
      state := L.Ready;
      new;
      L.InitWf(columns, rows, seed, random, randomGrid, enforceBoundary);
    }

    /** __init__ with its two failures: a zero size without a seed, or a seed
        cell that is neither 0 nor 1. */
    static method Create(columns: int, rows: int, seed: L.Option<Board>, random: bool, randomGrid: Board,
                         enforceBoundary: bool) returns (r: L.Result<Game, L.InitError>)
      requires L.InitRequires(columns, rows, seed, random, randomGrid)
      ensures var init := L.Init(columns, rows, seed, random, randomGrid, enforceBoundary);
        (r.Failure? <==> init.Failure?) &&
        (r.Failure? ==> r.error == init.error) &&
        (r.Success? ==> fresh(r.value) && r.value.Valid() && r.value.Model() == init.value)
    {
      match seed {
        case None =>
          if columns == 0 || rows == 0 {
            return L.Failure(L.ZeroSize);
          }
        case Some(s) =>
          var ok := ScanSeed(s);
          if !ok {
            return L.Failure(L.NonBinarySeed);
          }
      }
      var g := new Game(columns, rows, seed, random, randomGrid, enforceBoundary);
      r := L.Success(g);
    }

    /** Scans every cell; ok is false as soon as one is neither 0 nor 1. */
    static method ScanSeed(seed: Board) returns (ok: bool)
      ensures ok == IsBinary(seed)
    {
      for i := 0 to |seed|
        invariant forall i', j :: 0 <= i' < i && 0 <= j < |seed[i']| ==> seed[i'][j] == 0 || seed[i'][j] == 1
      {
        var row := seed[i];
        for j := 0 to |row|
          invariant forall j' :: 0 <= j' < j ==> row[j'] == 0 || row[j'] == 1
        {
          if row[j] != 0 && row[j] != 1 {
            return false;
          }
        }
      }
      return true;
    }

    /** Live neighbours of (row, column): walks the eight candidates, skipping
        off-board ones when the boundary is enforced and otherwise moving -1
        to the last index and the dimension to 0. */
    method NumNeighbors(row: int, column: int) returns (neighbors: int)
      requires 0 <= row < |currentBoard| && 0 <= column < |currentBoard[row]|
      requires Rectangular(currentBoard) && boardSize == (|currentBoard[0]|, |currentBoard|)
      ensures 0 <= neighbors <= 8
      ensures neighbors == NeighborCount(currentBoard, row, column, enforceBoundary)
    {
      var b := currentBoard;
      assert Rectangular(b) && |b[row]| == |b[0]|;
      neighbors := 0;
      var (numCols, numRows) := boardSize;
      assert numRows == |b| && numCols == |b[0]|;
      var neighborSet := NeighborCoords(row, column);
      for k := 0 to |neighborSet|
        invariant neighbors == CountOver(b, neighborSet[..k], enforceBoundary)
      {
        assert neighborSet[..k + 1][..k] == neighborSet[..k];
        ghost var p := neighborSet[k];
        var (nRow, nCol) := neighborSet[k];
        ContributionCases(b, p, enforceBoundary);
        if nRow < 0 || nCol < 0 {
          if enforceBoundary {
            assert Contribution(b, p, enforceBoundary) == 0;
            continue;
          }
          if nRow < 0 {
            nRow := numRows - 1;
          }
          if nCol < 0 {
            nCol := numCols - 1;
          }
        }
        if nRow == numRows || nCol == numCols {
          if enforceBoundary {
            assert Contribution(b, p, enforceBoundary) == 0;
            continue;
          }
          if nRow == numRows {
            nRow := 0;
          }
          if nCol == numCols {
            nCol := 0;
          }
        }
        assert Contribution(b, p, enforceBoundary) == Alive(b[nRow][nCol]);
        if b[nRow][nCol] == 1 {
          neighbors := neighbors + 1;
        }
      }
      assert neighborSet[..|neighborSet|] == neighborSet;
    }

    method Start()
      requires Valid()
      modifies this
      ensures Valid()
      ensures Model() == L.Start(old(Model()))
    {
      currentBoard := seed;
      state := L.Running;
      generations := 0;
      liveCells := CountLive(currentBoard);
    }

    method Stop()
      requires Valid()
      modifies this
      ensures Valid()
      ensures Model() == L.Stop(old(Model()))
    {
      if state == L.Running {
        state := L.Finished;
        liveCells := CountLive(currentBoard);
      }
    }

    /** randomGrid stands for the grid the random generator would produce. */
    method Reseed(randomGrid: Board)
      requires Valid() && IsBoardOf(randomGrid, boardSize.0, boardSize.1)
      modifies this
      ensures Valid()
      ensures Model() == L.Reseed(old(Model()), randomGrid)
    {
      if state != L.Running {
        seed := randomGrid;
        liveCells := CountLive(seed);
        currentBoard := seed;
        state := L.Ready;
      }
    }

    /** The loop nest of run_generation: every neighbour count is taken on the
        unmodified current board, the copy is written cell by cell, and the
        live count starts from a recount and is adjusted by each change. */
    method ComputeGeneration() returns (intermediate: Board, upcoming: int)
      requires Valid()
      ensures intermediate == NextBoard(currentBoard, enforceBoundary)
      ensures upcoming == CountLive(intermediate)
    {
      ghost var next := NextBoard(currentBoard, enforceBoundary);
      intermediate := currentBoard;
      upcoming := CountLive(currentBoard);
      var rowIndex := 0;
      while rowIndex < |currentBoard|
        invariant Progress(intermediate, currentBoard, next, rowIndex, 0)
        invariant upcoming == CountLive(intermediate)
      {
        var row := currentBoard[rowIndex];
        var colIndex := 0;
        while colIndex < |row|
          invariant colIndex <= |row|
          invariant Progress(intermediate, currentBoard, next, rowIndex, colIndex)
          invariant upcoming == CountLive(intermediate)
        {
          var neighbors := NumNeighbors(rowIndex, colIndex);
          ProgressAt(intermediate, currentBoard, next, rowIndex, colIndex, enforceBoundary);
          if neighbors < 2 || neighbors > 3 {
            if currentBoard[rowIndex][colIndex] == 1 {
              upcoming := upcoming - 1;
            }
            CountLiveUpdate(intermediate, rowIndex, colIndex, 0);
            WriteCell(intermediate, currentBoard, next, rowIndex, colIndex, 0);
            intermediate := intermediate[rowIndex := intermediate[rowIndex][colIndex := 0]];
          } else if neighbors == 3 {
            if currentBoard[rowIndex][colIndex] == 0 {
              upcoming := upcoming + 1;
            }
            CountLiveUpdate(intermediate, rowIndex, colIndex, 1);
            WriteCell(intermediate, currentBoard, next, rowIndex, colIndex, 1);
            intermediate := intermediate[rowIndex := intermediate[rowIndex][colIndex := 1]];
          } else {
            KeepCell(intermediate, currentBoard, next, rowIndex, colIndex);
          }
          colIndex := colIndex + 1;
        }
        NextRow(intermediate, currentBoard, next, rowIndex);
        rowIndex := rowIndex + 1;
      }
      Finished(intermediate, currentBoard, next);
    }

    /** One generation; does nothing unless the game is Running or in
        Stasis. A board equal to the current or the previous one sets Stasis
        and installs nothing; otherwise the boards move on. */
    method RunGeneration()
      requires Valid()
      modifies this
      ensures Valid()
      ensures Model() == L.Step(old(Model()))
    {
      if state != L.Running && state != L.Stasis {
        return;
      }
      var intermediate, upcoming := ComputeGeneration();
      Advance(intermediate, upcoming);
    }

    /** The bookkeeping after the copy is complete. */
    method Advance(intermediate: Board, upcoming: int)
      requires Valid() && (state == L.Running || state == L.Stasis)
      requires intermediate == NextBoard(currentBoard, enforceBoundary) && upcoming == CountLive(intermediate)
      modifies this
      ensures Valid()
      ensures Model() == L.Step(old(Model()))
    {
      L.StepWf(Model());
      generations := generations + 1;
      liveCells := upcoming;
      if currentBoard == intermediate {
        state := L.Stasis;
      } else if previousBoard == L.Some(intermediate) {
        state := L.Stasis;
      } else {
        previousBoard := L.Some(currentBoard);
        currentBoard := intermediate;
      }
    }
  }

  /** The state of the copy during the generation loop: cells before
      (r, c) in row-major order hold their new value, the others their old
      one. */
  ghost predicate Progress(inter: Board, b: Board, next: Board, r: int, c: int) {
    |inter| == |b| && |next| == |b| && 0 <= r <= |b| && 0 <= c &&
    (r < |b| ==> c <= |b[r]|) &&
    (forall i :: 0 <= i < |b| ==> |inter[i]| == |b[i]| && |next[i]| == |b[i]|) &&
    (forall i, j :: 0 <= i < |b| && 0 <= j < |b[i]| ==>
      inter[i][j] == if i < r || (i == r && j < c) then next[i][j] else b[i][j])
  }

  lemma ProgressAt(inter: Board, b: Board, next: Board, r: int, c: int, enforceBoundary: bool)
    requires Rectangular(b) && next == NextBoard(b, enforceBoundary)
    requires Progress(inter, b, next, r, c) && r < |b| && c < |b[r]|
    ensures inter[r][c] == b[r][c]
    ensures next[r][c] == NextCell(b[r][c], NeighborCount(b, r, c, enforceBoundary))
  {
  }

  lemma WriteCell(inter: Board, b: Board, next: Board, r: int, c: int, v: int)
    requires Progress(inter, b, next, r, c) && r < |b| && c < |b[r]| && next[r][c] == v
    ensures Progress(inter[r := inter[r][c := v]], b, next, r, c + 1)
  {
  }

  lemma KeepCell(inter: Board, b: Board, next: Board, r: int, c: int)
    requires Progress(inter, b, next, r, c) && r < |b| && c < |b[r]| && next[r][c] == b[r][c]
    ensures Progress(inter, b, next, r, c + 1)
  {
  }

  lemma NextRow(inter: Board, b: Board, next: Board, r: int)
    requires 0 <= r < |b| && Progress(inter, b, next, r, |b[r]|)
    ensures Progress(inter, b, next, r + 1, 0)
  {
  }

  lemma Finished(inter: Board, b: Board, next: Board)
    requires Progress(inter, b, next, |b|, 0)
    ensures inter == next
  {
    forall i | 0 <= i < |b| ensures inter[i] == next[i] {
    }
  }
}
