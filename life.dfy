/** Neighbour counting under the two edge policies, and Conway's rule applied
    to a whole board at once. */
module Life {
  import opened Grid

  type Coord = (int, int)

  /** The eight coordinates around (row, column), before any wrapping. They
      are eight distinct pairs, so the source's set of them has eight members
      and a sequence of them stands for it (the count is a sum, so order does
      not matter). */
  function NeighborCoords(row: int, column: int): (cs: seq<Coord>)
    ensures |cs| == 8
    ensures forall k :: 0 <= k < |cs| ==>
      cs[k] != (row, column) && row - 1 <= cs[k].0 <= row + 1 && column - 1 <= cs[k].1 <= column + 1
  {
    [(row - 1, column - 1), (row - 1, column), (row - 1, column + 1),
     (row, column - 1), (row, column + 1),
     (row + 1, column - 1), (row + 1, column), (row + 1, column + 1)]
  }

  lemma NeighborCoordsDistinct(row: int, column: int)
    ensures var cs := NeighborCoords(row, column);
      forall k, l :: 0 <= k < l < |cs| ==> cs[k] != cs[l]
  {
  }

  /** A coordinate of the (rectangular) board b. */
  predicate InBoard(b: Board, p: Coord)
    requires Rectangular(b) && |b| > 0
  {
    0 <= p.0 < |b| && 0 <= p.1 < |b[0]|
  }

  /** What one candidate neighbour adds to the count: with the boundary
      enforced, a live cell if p is on the board and nothing otherwise; on the
      torus, the live cell at p reduced modulo the board's height and width. */
  function Contribution(b: Board, p: Coord, enforceBoundary: bool): nat
    requires Rectangular(b) && |b| > 0 && |b[0]| > 0
  {
    if enforceBoundary then
      (if InBoard(b, p) then Alive(b[p.0][p.1]) else 0)
    else
      Alive(b[p.0 % |b|][p.1 % |b[0]|])
  }

  /** Sum of the contributions of the candidates ps. */
  function CountOver(b: Board, ps: seq<Coord>, enforceBoundary: bool): (n: nat)
    requires Rectangular(b) && |b| > 0 && |b[0]| > 0
    ensures n <= |ps|
  {
    if ps == [] then 0
    else CountOver(b, ps[..|ps| - 1], enforceBoundary) + Contribution(b, ps[|ps| - 1], enforceBoundary)
  }

  /** Number of live neighbours of cell (row, column). */
  function NeighborCount(b: Board, row: int, column: int, enforceBoundary: bool): (n: nat)
    requires Rectangular(b) && 0 <= row < |b| && 0 <= column < |b[0]|
    ensures n <= 8
  {
    CountOver(b, NeighborCoords(row, column), enforceBoundary)
  }

  /** New value of a cell holding v with n live neighbours, as written in the
      source: fewer than 2 or more than 3 kills, exactly 3 gives life, and any
      other count leaves the cell as it was. */
  function NextCell(v: int, n: int): int {
    if n < 2 || n > 3 then 0
    else if n == 3 then 1
    else v
  }

  /** The board one generation on: every cell follows NextCell with its
      neighbours counted on the unmodified board b. */
  function NextBoard(b: Board, enforceBoundary: bool): (nb: Board)
    requires Rectangular(b)
    ensures |nb| == |b| && forall i :: 0 <= i < |b| ==> |nb[i]| == |b[i]|
    ensures Rectangular(nb)
    ensures IsBinary(b) ==> IsBinary(nb)
  {
    seq(|b|, i requires 0 <= i < |b| =>
      seq(|b[i]|, j requires 0 <= j < |b[i]| =>
        NextCell(b[i][j], NeighborCount(b, i, j, enforceBoundary))))
  }

  // ---------------------------------------------------------------------
  // The neighbour count

  /** Unfolds a sum over eight candidates. */
  lemma CountOverEight(b: Board, ps: seq<Coord>, enforceBoundary: bool)
    requires Rectangular(b) && |b| > 0 && |b[0]| > 0 && |ps| == 8
    ensures CountOver(b, ps, enforceBoundary) ==
      Contribution(b, ps[0], enforceBoundary) + Contribution(b, ps[1], enforceBoundary) +
      Contribution(b, ps[2], enforceBoundary) + Contribution(b, ps[3], enforceBoundary) +
      Contribution(b, ps[4], enforceBoundary) + Contribution(b, ps[5], enforceBoundary) +
      Contribution(b, ps[6], enforceBoundary) + Contribution(b, ps[7], enforceBoundary)
  {
    var e := enforceBoundary;
    assert ps[..8][..7] == ps[..7] && ps[..7][..6] == ps[..6] && ps[..6][..5] == ps[..5];
    assert ps[..5][..4] == ps[..4] && ps[..4][..3] == ps[..3] && ps[..3][..2] == ps[..2];
    assert ps[..2][..1] == ps[..1] && ps[..1][..0] == [];
    assert ps[..8] == ps;
    calc {
      CountOver(b, ps, e);
      CountOver(b, ps[..7], e) + Contribution(b, ps[7], e);
      CountOver(b, ps[..6], e) + Contribution(b, ps[6], e) + Contribution(b, ps[7], e);
      CountOver(b, ps[..5], e) + Contribution(b, ps[5], e) + Contribution(b, ps[6], e) + Contribution(b, ps[7], e);
      CountOver(b, ps[..4], e) + Contribution(b, ps[4], e) + Contribution(b, ps[5], e) + Contribution(b, ps[6], e)
        + Contribution(b, ps[7], e);
      CountOver(b, ps[..3], e) + Contribution(b, ps[3], e) + Contribution(b, ps[4], e) + Contribution(b, ps[5], e)
        + Contribution(b, ps[6], e) + Contribution(b, ps[7], e);
      CountOver(b, ps[..2], e) + Contribution(b, ps[2], e) + Contribution(b, ps[3], e) + Contribution(b, ps[4], e)
        + Contribution(b, ps[5], e) + Contribution(b, ps[6], e) + Contribution(b, ps[7], e);
      CountOver(b, ps[..1], e) + Contribution(b, ps[1], e) + Contribution(b, ps[2], e) + Contribution(b, ps[3], e)
        + Contribution(b, ps[4], e) + Contribution(b, ps[5], e) + Contribution(b, ps[6], e) + Contribution(b, ps[7], e);
    }
  }

  /** The live, on-board candidates among ps. */
  function LiveOnBoard(b: Board, ps: seq<Coord>): set<Coord>
    requires Rectangular(b) && |b| > 0
  {
    set p | p in ps && InBoard(b, p) && b[p.0][p.1] == 1
  }

  lemma {:induction false} CountOverAsSet(b: Board, ps: seq<Coord>)
    requires Rectangular(b) && |b| > 0 && |b[0]| > 0
    requires forall k, l :: 0 <= k < l < |ps| ==> ps[k] != ps[l]
    ensures CountOver(b, ps, true) == |LiveOnBoard(b, ps)|
  {
    if ps != [] {
      var init, last := ps[..|ps| - 1], ps[|ps| - 1];
      CountOverAsSet(b, init);
      LiveOnBoardSnoc(b, init, last);
      assert init + [last] == ps;
    }
  }

  lemma LiveOnBoardSnoc(b: Board, init: seq<Coord>, last: Coord)
    requires Rectangular(b) && |b| > 0 && |b[0]| > 0 && last !in init
    ensures |LiveOnBoard(b, init + [last])| ==
      |LiveOnBoard(b, init)| + Contribution(b, last, true)
  {
    if InBoard(b, last) && b[last.0][last.1] == 1 {
      assert LiveOnBoard(b, init + [last]) == LiveOnBoard(b, init) + {last};
    } else {
      assert LiveOnBoard(b, init + [last]) == LiveOnBoard(b, init);
    }
  }

  /** The live cells among the in-range 8-neighbours of (row, column). */
  function LiveWindow(b: Board, row: int, column: int): set<Coord>
    requires Rectangular(b) && |b| > 0
  {
    set i, j | row - 1 <= i <= row + 1 && column - 1 <= j <= column + 1 && (i, j) != (row, column)
               && 0 <= i < |b| && 0 <= j < |b[0]| && b[i][j] == 1 :: (i, j)
  }

  /** With the boundary enforced, the count is exactly the number of live
      cells among the on-board neighbours; off-board candidates are skipped. */
  lemma BoundedCountIsLiveWindow(b: Board, row: int, column: int)
    requires Rectangular(b) && 0 <= row < |b| && 0 <= column < |b[0]|
    ensures NeighborCount(b, row, column, true) == |LiveWindow(b, row, column)|
  {
    var cs := NeighborCoords(row, column);
    NeighborCoordsDistinct(row, column);
    CountOverAsSet(b, cs);
    forall p | p in LiveWindow(b, row, column) ensures p in LiveOnBoard(b, cs) {
      var (i, j) := p;
      if i == row - 1 {
        assert p == cs[0] || p == cs[1] || p == cs[2];
      } else if i == row {
        assert p == cs[3] || p == cs[4];
      } else {
        assert p == cs[5] || p == cs[6] || p == cs[7];
      }
    }
    assert LiveWindow(b, row, column) == LiveOnBoard(b, cs);
  }

  /** The contribution of one candidate, case by case as the neighbour walk
      decides it: with the boundary enforced an off-board candidate adds
      nothing; otherwise -1 stands for the last index and the dimension for
      0. */
  lemma ContributionCases(b: Board, p: Coord, enforceBoundary: bool)
    requires Rectangular(b) && |b| > 0 && |b[0]| > 0
    requires -1 <= p.0 <= |b| && -1 <= p.1 <= |b[0]|
    ensures var (rows, cols) := (|b|, |b[0]|);
      var outside := p.0 < 0 || p.1 < 0 || p.0 == rows || p.1 == cols;
      var r := if p.0 < 0 then rows - 1 else if p.0 == rows then 0 else p.0;
      var c := if p.1 < 0 then cols - 1 else if p.1 == cols then 0 else p.1;
      Contribution(b, p, enforceBoundary) ==
        if enforceBoundary && outside then 0 else Alive(b[r][c])
  {
    WrapStep(p.0, |b|);
    WrapStep(p.1, |b[0]|);
  }

  /** Index arithmetic of the torus: one step above the top is the last row,
      one step past the end is index 0. */
  lemma WrapStep(x: int, n: int)
    requires n > 0 && -1 <= x <= n
    ensures x % n == (if x < 0 then n - 1 else if x == n then 0 else x)
  {
    if x < 0 {
      assert x == (n - 1) + n * (-1);
    } else if x == n {
      assert x == 0 + n * 1;
    } else {
      assert x == x + n * 0;
    }
  }

  /** The cell at (i, j) when it is on the board, and nothing otherwise: the
      walled contribution of (i, j). */
  function At(b: Board, i: int, j: int): nat
    requires Rectangular(b) && |b| > 0 && |b[0]| > 0
  {
    Contribution(b, (i, j), true)
  }

  /** With the boundary enforced, the count is the sum over the eight
      surrounding positions, off-board ones contributing nothing. */
  lemma BoundedCountIsSum(b: Board, row: int, column: int)
    requires Rectangular(b) && 0 <= row < |b| && 0 <= column < |b[0]|
    ensures NeighborCount(b, row, column, true) ==
      At(b, row - 1, column - 1) + At(b, row - 1, column) + At(b, row - 1, column + 1) +
      At(b, row, column - 1) + At(b, row, column + 1) +
      At(b, row + 1, column - 1) + At(b, row + 1, column) + At(b, row + 1, column + 1)
  {
    CountOverEight(b, NeighborCoords(row, column), true);
  }

  /** On the torus, cell (0, 0) has as neighbours the cells across both edges,
      among them the opposite corner (rows - 1, columns - 1). */
  lemma TorusCorner(b: Board)
    requires Rectangular(b) && |b| >= 2 && |b[0]| >= 2
    ensures var r, c := |b| - 1, |b[0]| - 1;
      NeighborCount(b, 0, 0, false) ==
        Alive(b[r][c]) + Alive(b[r][0]) + Alive(b[r][1]) + Alive(b[0][c]) +
        Alive(b[0][1]) + Alive(b[1][c]) + Alive(b[1][0]) + Alive(b[1][1])
  {
    CountOverEight(b, NeighborCoords(0, 0), false);
    WrapStep(-1, |b|);
    WrapStep(-1, |b[0]|);
    WrapStep(0, |b|);
    WrapStep(0, |b[0]|);
    WrapStep(1, |b|);
    WrapStep(1, |b[0]|);
  }

  /** Away from the edges the two policies agree. */
  lemma {:induction false} InteriorPoliciesAgree(b: Board, ps: seq<Coord>)
    requires Rectangular(b) && |b| > 0 && |b[0]| > 0
    requires forall k :: 0 <= k < |ps| ==> InBoard(b, ps[k])
    ensures CountOver(b, ps, true) == CountOver(b, ps, false)
  {
    if ps != [] {
      var last := ps[|ps| - 1];
      WrapStep(last.0, |b|);
      WrapStep(last.1, |b[0]|);
      InteriorPoliciesAgree(b, ps[..|ps| - 1]);
    }
  }

  lemma InteriorCellPoliciesAgree(b: Board, row: int, column: int)
    requires Rectangular(b) && 1 <= row < |b| - 1 && 1 <= column < |b[0]| - 1
    ensures NeighborCount(b, row, column, true) == NeighborCount(b, row, column, false)
  {
    InteriorPoliciesAgree(b, NeighborCoords(row, column));
  }

  /** On a 1x1 torus every candidate wraps onto the cell itself: a live cell
      counts itself eight times, where the walled board counts nothing. */
  lemma SingleCellTorus()
    ensures NeighborCount([[1]], 0, 0, false) == 8
    ensures NeighborCount([[1]], 0, 0, true) == 0
  {
    CountOverEight([[1]], NeighborCoords(0, 0), false);
    CountOverEight([[1]], NeighborCoords(0, 0), true);
  }

  // ---------------------------------------------------------------------
  // The rule

  /** Every cell of the next board follows the three rules of the source,
      with its neighbours counted on the unmodified board. */
  lemma NextBoardRules(b: Board, enforceBoundary: bool, i: int, j: int)
    requires Rectangular(b) && 0 <= i < |b| && 0 <= j < |b[i]|
    ensures var n := NeighborCount(b, i, j, enforceBoundary);
      var v := NextBoard(b, enforceBoundary)[i][j];
      ((n < 2 || n > 3) ==> v == 0) && (n == 3 ==> v == 1) && (n == 2 ==> v == b[i][j])
  {
  }

  /** On a 0/1 board the rule is Conway's B3/S23: a live cell survives with 2
      or 3 live neighbours, a dead one is born with exactly 3. */
  lemma NextBoardIsB3S23(b: Board, enforceBoundary: bool, i: int, j: int)
    requires Rectangular(b) && IsBinary(b) && 0 <= i < |b| && 0 <= j < |b[i]|
    ensures var n := NeighborCount(b, i, j, enforceBoundary);
      NextBoard(b, enforceBoundary)[i][j] ==
        if (b[i][j] == 1 && (n == 2 || n == 3)) || (b[i][j] == 0 && n == 3) then 1 else 0
  {
  }

  lemma {:induction false} DeadCountOver(b: Board, ps: seq<Coord>, enforceBoundary: bool)
    requires Rectangular(b) && |b| > 0 && |b[0]| > 0 && IsDead(b)
    ensures CountOver(b, ps, enforceBoundary) == 0
  {
    if ps != [] {
      var p := ps[|ps| - 1];
      if !enforceBoundary {
        assert b[p.0 % |b|][p.1 % |b[0]|] == 0;
      }
      DeadCountOver(b, ps[..|ps| - 1], enforceBoundary);
    }
  }

  /** The empty board is a fixed point under both policies. */
  lemma DeadBoardIsFixedPoint(b: Board, enforceBoundary: bool)
    requires Rectangular(b) && IsDead(b)
    ensures NextBoard(b, enforceBoundary) == b
  {
    var nb := NextBoard(b, enforceBoundary);
    forall i | 0 <= i < |b| ensures nb[i] == b[i] {
      forall j | 0 <= j < |b[i]| ensures nb[i][j] == b[i][j] {
        DeadCountOver(b, NeighborCoords(i, j), enforceBoundary);
      }
    }
  }

  /** A live cell with no live on-board neighbour dies on a walled board. */
  lemma IsolatedCellDies(b: Board, row: int, column: int)
    requires Rectangular(b) && 0 <= row < |b| && 0 <= column < |b[0]|
    requires forall i, j ::
      (row - 1 <= i <= row + 1 && column - 1 <= j <= column + 1 && (i, j) != (row, column)
       && 0 <= i < |b| && 0 <= j < |b[0]|) ==> b[i][j] == 0
    ensures NeighborCount(b, row, column, true) == 0
    ensures NextBoard(b, true)[row][column] == 0
  {
    BoundedCountIsLiveWindow(b, row, column);
    assert LiveWindow(b, row, column) == {};
  }
}
