/** Boards of the Game of Life: a sequence of rows, each a sequence of cells,
    a cell being 0 (dead) or 1 (alive). */
module Grid {

  type Board = seq<seq<int>>

  /** The number of values Python's range(n) produces: negative sizes give
      nothing at all. */
  function Extent(n: int): nat {
    if n < 0 then 0 else n
  }

  /** b has the shape that `columns` by `rows` comprehensions produce. */
  predicate HasShape(b: Board, columns: int, rows: int) {
    |b| == Extent(rows) && forall i :: 0 <= i < |b| ==> |b[i]| == Extent(columns)
  }

  /** Every row is as long as the first one. */
  predicate Rectangular(b: Board) {
    forall i :: 0 <= i < |b| ==> |b[i]| == |b[0]|
  }

  /** Every cell holds 0 or 1. */
  predicate IsBinary(b: Board) {
    forall i, j :: 0 <= i < |b| && 0 <= j < |b[i]| ==> b[i][j] == 0 || b[i][j] == 1
  }

  /** Every cell holds 0. */
  predicate IsDead(b: Board) {
    forall i, j :: 0 <= i < |b| && 0 <= j < |b[i]| ==> b[i][j] == 0
  }

  /** A 0/1 board of the given shape: what every board of a game is, and what
      a random seed must be. */
  predicate IsBoardOf(g: Board, columns: int, rows: int) {
    HasShape(g, columns, rows) && IsBinary(g)
  }

  /** 1 when a cell is alive (holds exactly 1), 0 otherwise. */
  function Alive(v: int): nat {
    if v == 1 then 1 else 0
  }

  /** Number of cells of a row that hold 1. */
  function RowLive(row: seq<int>): (n: nat)
    ensures n <= |row|
  {
    if row == [] then 0 else Alive(row[0]) + RowLive(row[1..])
  }

  /** Number of cells of a board. */
  function CellCount(b: Board): nat {
    if b == [] then 0 else |b[0]| + CellCount(b[1..])
  }

  /** Number of cells of a board that hold 1 (the source's _count_live_cells). */
  function CountLive(b: Board): (n: nat)
    ensures n <= CellCount(b)
  {
    if b == [] then 0 else RowLive(b[0]) + CountLive(b[1..])
  }

  /** The all-dead board of the given size (the source's _create_zeros). */
  function Zeros(columns: int, rows: int): (z: Board)
    ensures HasShape(z, columns, rows) && IsDead(z)
  {
    seq(Extent(rows), _ => seq(Extent(columns), _ => 0))
  }

  lemma {:induction false} RowLiveUpdate(row: seq<int>, j: int, v: int)
    requires 0 <= j < |row|
    ensures RowLive(row[j := v]) == RowLive(row) - Alive(row[j]) + Alive(v)
  {
    if j == 0 {
      assert row[j := v][1..] == row[1..];
    } else {
      assert row[j := v][1..] == row[1..][j - 1 := v];
      RowLiveUpdate(row[1..], j - 1, v);
    }
  }

  /** Writing v into one cell changes the live count by exactly what the
      cell gains or loses. */
  lemma {:induction false} CountLiveUpdate(b: Board, i: int, j: int, v: int)
    requires 0 <= i < |b| && 0 <= j < |b[i]|
    ensures CountLive(b[i := b[i][j := v]]) == CountLive(b) - Alive(b[i][j]) + Alive(v)
  {
    if i == 0 {
      assert b[i := b[i][j := v]][1..] == b[1..];
      RowLiveUpdate(b[0], j, v);
    } else {
      assert b[i := b[i][j := v]][1..] == b[1..][i - 1 := b[i][j := v]];
      CountLiveUpdate(b[1..], i - 1, j, v);
    }
  }

  lemma {:induction false} RowLiveDead(row: seq<int>)
    requires forall j :: 0 <= j < |row| ==> row[j] == 0
    ensures RowLive(row) == 0
  {
    if row != [] {
      RowLiveDead(row[1..]);
    }
  }

  /** A board with no live cell counts 0 live cells. */
  lemma {:induction false} CountLiveDead(b: Board)
    requires IsDead(b)
    ensures CountLive(b) == 0
  {
    if b != [] {
      RowLiveDead(b[0]);
      assert IsDead(b[1..]) by {
        forall i, j | 0 <= i < |b[1..]| && 0 <= j < |b[1..][i]| ensures b[1..][i][j] == 0 {
          assert b[1..][i] == b[i + 1];
        }
      }
      CountLiveDead(b[1..]);
    }
  }
}
