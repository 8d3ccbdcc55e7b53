/**
 * The helpers shared by the Minesweeper game: cell numbering on a board of
 * `width` columns and `height` rows stored row by row, the eight
 * neighbours of a cell, the two-view mask of marked cells (a dense flag per
 * cell and the sparse list of marked positions), and the text of a board.
 *
 * The C++ code takes the extents as template parameters; here they are
 * parameters of the functions and fields of the mask.
 */
module Minesweeper {
  import opened Modular
  import opened Decimal

  /** A cell value: -1 for a cell not yet uncovered, -2 for an exploded mine, else the number of mines around. */
  const Unknown := -1
  const Boom := -2

  datatype BoardPosition = BoardPosition(row: int, col: int)

  /** `rowColToIdx`. */
  function RowColToIdx(stride: nat, row: int, col: int): int
  {
    row * stride + col
  }

  /**
   * `idxToRowCol`: idx is converted to the unsigned `size_t` of the stride
   * before the division, and the quotient and remainder are stored back
   * into `int`s.
   */
  function IdxToRowCol(stride: nat, idx: int): (int, int)
    requires stride > 0
  {
    var u := if idx >= 0 then idx else idx + 0x1_0000_0000_0000_0000;
    (ToInt32(u / stride), ToInt32(u % stride))
  }

  /** `isInBoard`. */
  predicate IsInBoard(width: nat, height: nat, row: int, col: int)
  {
    0 <= row < height && 0 <= col < width
  }

  /** The cells of the board are numbered 0 .. width * height - 1. */
  lemma IdxInBoard(width: nat, height: nat, row: int, col: int)
    requires IsInBoard(width, height, row, col)
    ensures 0 <= RowColToIdx(width, row, col) < width * height
  {
    MulLe(width, row, height - 1);
    assert width * (height - 1) + width == width * height;
  }

  /** The two conversions are inverse on the board (boards of fewer than 2^31 cells). */
  lemma RowColRoundTrip(width: nat, height: nat, row: int, col: int)
    requires width * height < 0x8000_0000 && IsInBoard(width, height, row, col)
    ensures IdxToRowCol(width, RowColToIdx(width, row, col)) == (row, col)
  {
    IdxInBoard(width, height, row, col);
    DivModOf(RowColToIdx(width, row, col), width, row, col);
  }

  lemma IdxRoundTrip(width: nat, height: nat, idx: int)
    requires width > 0 && width * height < 0x8000_0000 && 0 <= idx < width * height
    ensures var (row, col) := IdxToRowCol(width, idx);
            IsInBoard(width, height, row, col) && RowColToIdx(width, row, col) == idx
  {
    var q, r := idx / width, idx % width;
    assert idx == width * q + r;
    MulLe(q, 1, width);
    assert ToInt32(q) == q && ToInt32(r) == r;
    if q >= height {
      MulLe(width, height, q);
      assert false;
    }
  }

  // ---------------------------------------------------------------------
  // Neighbours.

  /** The row and column steps to the eight neighbours, in the order the loops visit them. */
  const DRow: seq<int> := [-1, -1, -1, 0, 0, 1, 1, 1]
  const DCol: seq<int> := [-1, 0, 1, -1, 1, -1, 0, 1]

  /** The value of the board at an in-board cell (`arrGet`). */
  function ArrGet(board: seq<int>, width: nat, height: nat, row: int, col: int): int
    requires |board| == width * height && IsInBoard(width, height, row, col)
  {
    IdxInBoard(width, height, row, col);
    board[RowColToIdx(width, row, col)]
  }

  /** The i-th neighbour of (row, col) is on the board and satisfies the predicate. */
  predicate Matches(board: seq<int>, width: nat, height: nat, row: int, col: int,
                    pred: (int, int, int) -> bool, i: int)
    requires |board| == width * height && 0 <= i < 8
  {
    var r, c := row + DRow[i], col + DCol[i];
    IsInBoard(width, height, r, c) && pred(ArrGet(board, width, height, r, c), r, c)
  }

  /** The matching neighbours among the first n, in visiting order (what `getNeighbors` returns for n = 8). */
  function Neighbors(board: seq<int>, width: nat, height: nat, row: int, col: int,
                     pred: (int, int, int) -> bool, n: nat): (ps: seq<BoardPosition>)
    requires |board| == width * height && n <= 8
    ensures |ps| <= n
  {
    if n == 0 then []
    else
      var ps := Neighbors(board, width, height, row, col, pred, n - 1);
      if Matches(board, width, height, row, col, pred, n - 1)
      then ps + [BoardPosition(row + DRow[n - 1], col + DCol[n - 1])]
      else ps
  }

  /** A position is listed exactly when it is one of the first n neighbours and it matches. */
  lemma {:induction false} NeighborsIff(board: seq<int>, width: nat, height: nat, row: int, col: int,
                                       pred: (int, int, int) -> bool, n: nat, p: BoardPosition)
    requires |board| == width * height && n <= 8
    ensures p in Neighbors(board, width, height, row, col, pred, n) <==>
            exists i :: 0 <= i < n && p == BoardPosition(row + DRow[i], col + DCol[i]) &&
                        Matches(board, width, height, row, col, pred, i)
  {
    if n > 0 {
      NeighborsIff(board, width, height, row, col, pred, n - 1, p);
    }
  }

  /** The eight steps are exactly the moves of a king: one row and one column at most, not both zero. */
  lemma KingSteps(dr: int, dc: int)
    ensures (exists i :: 0 <= i < 8 && dr == DRow[i] && dc == DCol[i]) <==>
            (-1 <= dr <= 1 && -1 <= dc <= 1 && (dr != 0 || dc != 0))
  {
    if -1 <= dr <= 1 && -1 <= dc <= 1 && (dr != 0 || dc != 0) {
      var i := (dr + 1) * 3 + (dc + 1);
      var k := if i < 4 then i else i - 1;
      assert dr == DRow[k] && dc == DCol[k];
    }
  }

  /** The cells `getNeighbors` lists are exactly the in-board cells next to (row, col) that satisfy the predicate. */
  lemma NeighborsAreAdjacent(board: seq<int>, width: nat, height: nat, row: int, col: int,
                             pred: (int, int, int) -> bool, p: BoardPosition)
    requires |board| == width * height
    ensures p in Neighbors(board, width, height, row, col, pred, 8) <==>
            IsInBoard(width, height, p.row, p.col) &&
            -1 <= p.row - row <= 1 && -1 <= p.col - col <= 1 && p != BoardPosition(row, col) &&
            pred(ArrGet(board, width, height, p.row, p.col), p.row, p.col)
  {
    NeighborsIff(board, width, height, row, col, pred, 8, p);
    KingSteps(p.row - row, p.col - col);
  }

  /** `getNeighbors`: the matching neighbours in visiting order; at most eight. */
  method GetNeighbors(board: seq<int>, width: nat, height: nat, row: int, col: int,
                      pred: (int, int, int) -> bool) returns (result: seq<BoardPosition>)
    requires |board| == width * height
    ensures result == Neighbors(board, width, height, row, col, pred, 8) && |result| <= 8
  {
    result := [];
    var i := 0;
    while i < 8
      invariant 0 <= i <= 8 && result == Neighbors(board, width, height, row, col, pred, i)
    {
      var r, c := row + DRow[i], col + DCol[i];
      if IsInBoard(width, height, r, c) && pred(ArrGet(board, width, height, r, c), r, c) {
        result := result + [BoardPosition(r, c)];
      }
      i := i + 1;
    }
  }

  /** `countNeighbors`: how many neighbours match; at most eight. */
  method CountNeighbors(board: seq<int>, width: nat, height: nat, row: int, col: int,
                        pred: (int, int, int) -> bool) returns (count: nat)
    requires |board| == width * height
    ensures count == |Neighbors(board, width, height, row, col, pred, 8)| && count <= 8
  {
    count := 0;
    var i := 0;
    while i < 8
      invariant 0 <= i <= 8 && count == |Neighbors(board, width, height, row, col, pred, i)|
    {
      var r, c := row + DRow[i], col + DCol[i];
      if IsInBoard(width, height, r, c) && pred(ArrGet(board, width, height, r, c), r, c) {
        count := count + 1;
      }
      i := i + 1;
    }
  }

  // ---------------------------------------------------------------------
  // The mask.

  /** The flag of an in-board cell in the dense view. */
  function Flag(dense: seq<bool>, width: nat, height: nat, row: int, col: int): bool
    requires |dense| == width * height && IsInBoard(width, height, row, col)
  {
    IdxInBoard(width, height, row, col);
    dense[RowColToIdx(width, row, col)]
  }

  /** Two in-board cells with the same number are the same cell. */
  lemma IdxInjective(width: nat, height: nat, r: int, c: int, row: int, col: int)
    requires IsInBoard(width, height, r, c) && IsInBoard(width, height, row, col)
    requires RowColToIdx(width, r, c) == RowColToIdx(width, row, col)
    ensures r == row && c == col
  {
    DivModOf(RowColToIdx(width, r, c), width, r, c);
    DivModOf(RowColToIdx(width, row, col), width, row, col);
  }

  class Mask {
    const width: nat
    const height: nat
    /** The flag of every cell. */
    var dense: seq<bool>
    /** The marked positions, each once, in the order they were marked. */
    var sparse: seq<BoardPosition>

    /** Every listed position is an in-board cell whose flag is set, and none is listed twice. */
    ghost predicate Valid()
      reads this
    {
      |dense| == width * height &&
      (forall i :: 0 <= i < |sparse| ==> IsInBoard(width, height, sparse[i].row, sparse[i].col) &&
                                          Flag(dense, width, height, sparse[i].row, sparse[i].col)) &&
      (forall i, j :: 0 <= i < j < |sparse| ==> sparse[i] != sparse[j])
    }

    /** The two views agree: the flags set are exactly those of the listed positions. */
    ghost predicate Exact()
      reads this
      requires Valid()
    {
      forall row, col :: IsInBoard(width, height, row, col) ==>
        (Flag(dense, width, height, row, col) <==> BoardPosition(row, col) in sparse)
    }

    /** The constructor only reserves the list: the flags are whatever they are until `zero()`. */
    constructor(width: nat, height: nat)
      ensures this.width == width && this.height == height
      ensures Valid() && sparse == []
    {
      this.width, this.height := width, height;
      assert |seq(width * height, _ => false)| == width * height;
      var flags: seq<bool> :| |flags| == width * height;
      dense := flags;
      sparse := [];
    }

    /** `zero()`: every flag cleared and the list emptied. */
    method Zero()
      requires Valid()
      modifies this
      ensures Valid() && Exact() && sparse == []
      ensures forall row, col :: IsInBoard(width, height, row, col) ==> !Get(row, col)
    {
      var cleared := seq(width * height, _ => false);
      dense, sparse := cleared, [];
      forall row, col | IsInBoard(width, height, row, col)
        ensures !Flag(dense, width, height, row, col)
      {
        IdxInBoard(width, height, row, col);
        assert cleared[RowColToIdx(width, row, col)] == false;
      }
    }

    /** `get(row, col)`. */
    function Get(row: int, col: int): bool
      reads this
      requires Valid() && IsInBoard(width, height, row, col)
    {
      Flag(dense, width, height, row, col)
    }

    /**
     * `set(row, col)`: the flag is set, and the position is appended to the
     * list only when its flag was not already set, so that no position is
     * listed twice.
     */
    method Set(row: int, col: int)
      requires Valid() && IsInBoard(width, height, row, col)
      modifies this
      ensures Valid() && (old(Exact()) ==> Exact())
      ensures forall r, c :: IsInBoard(width, height, r, c) ==>
                Get(r, c) == (old(Get(r, c)) || (r == row && c == col))
      ensures sparse == if old(Get(row, col)) then old(sparse) else old(sparse) + [BoardPosition(row, col)]
    {
      IdxInBoard(width, height, row, col);
      var k := RowColToIdx(width, row, col);
      if !dense[k] {
        ghost var before := dense;
        dense := dense[k := true];
        sparse := sparse + [BoardPosition(row, col)];
        forall r, c | IsInBoard(width, height, r, c)
          ensures Flag(dense, width, height, r, c) == (Flag(before, width, height, r, c) || (r == row && c == col))
        {
          IdxInBoard(width, height, r, c);
          if RowColToIdx(width, r, c) == k {
            IdxInjective(width, height, r, c, row, col);
          }
        }
      }
    }
  }

  /**
   * `markNeighbors`: every matching neighbour is set in the mask, and
   * nothing else changes.
   */
  method MarkNeighbors(board: seq<int>, width: nat, height: nat, row: int, col: int,
                       mask: Mask, pred: (int, int, int) -> bool)
    requires |board| == width * height && mask.Valid() && mask.width == width && mask.height == height
    modifies mask
    ensures mask.Valid() && (old(mask.Exact()) ==> mask.Exact())
    ensures forall r, c :: IsInBoard(width, height, r, c) ==>
              mask.Get(r, c) == (old(mask.Get(r, c)) ||
                                 BoardPosition(r, c) in Neighbors(board, width, height, row, col, pred, 8))
  {
    var i := 0;
    while i < 8
      invariant 0 <= i <= 8 && mask.Valid() && (old(mask.Exact()) ==> mask.Exact())
      invariant forall r, c :: IsInBoard(width, height, r, c) ==>
                  mask.Get(r, c) == (old(mask.Get(r, c)) ||
                                     BoardPosition(r, c) in Neighbors(board, width, height, row, col, pred, i))
    {
      var r, c := row + DRow[i], col + DCol[i];
      if IsInBoard(width, height, r, c) && pred(ArrGet(board, width, height, r, c), r, c) {
        mask.Set(r, c);
      }
      i := i + 1;
    }
  }

  // ---------------------------------------------------------------------
  // The text of a board.

  /**
   * The character of a cell: '?' for an unknown cell, 'X' for an exploded
   * mine, else '0' plus the value, kept to the 8 bits of a `char`.
   */
  function CellChar(v: int): char
  {
    if v == Unknown then '?' else if v == Boom then 'X' else ((48 + v) % 256) as char
  }

  /** A count of mines around a cell is shown as its digit. */
  lemma CellCharDigit(v: int)
    requires 0 <= v <= 9
    ensures CellChar(v) == DigitChar(v)
  {
  }

  /** Row r of the board, as characters. */
  function RowChars(board: seq<int>, width: nat, r: nat): (t: string)
    requires (r + 1) * width <= |board|
    ensures |t| == width
  {
    seq(width, c requires 0 <= c < width => CellChar(board[r * width + c]))
  }

  /** The first `rows` rows of the text: each row's characters, then the end of line. */
  function BoardText(board: seq<int>, width: nat, rows: nat): (t: string)
    requires rows * width <= |board|
    ensures |t| == rows * (width + 1)
  {
    if rows == 0 then []
    else
      assert (rows - 1) * width + width == rows * width;
      BoardText(board, width, rows - 1) + RowChars(board, width, rows - 1) + ['\n']
  }

  /** The text has width + 1 characters per row: the cells of the row, in order, then '\n'. */
  lemma {:induction false} BoardTextAt(board: seq<int>, width: nat, rows: nat, r: nat, c: nat)
    requires rows * width <= |board| && r < rows && c <= width
    ensures r * (width + 1) + c < rows * (width + 1)
    ensures c < width ==> r * width + c < |board|
    ensures BoardText(board, width, rows)[r * (width + 1) + c] ==
            if c < width then CellChar(board[r * width + c]) else '\n'
  {
    MulLe(width + 1, r, rows - 1);
    MulLe(width, r, rows - 1);
    assert (rows - 1) * width + width == rows * width;
    if r < rows - 1 {
      BoardTextAt(board, width, rows - 1, r, c);
    }
  }

  /** `boardToString`: the characters of the cells, then the text, row by row. */
  method BoardToString(board: seq<int>, width: nat, height: nat) returns (s: string)
    requires |board| == width * height
    ensures s == BoardText(board, width, height)
  {
    var boardChars := CellChars(board);
    s := [];
    var row := 0;
    while row < height
      invariant 0 <= row <= height && s == BoardText(board, width, row)
    {
      var line := [];
      var col := 0;
      MulLe(width, row + 1, height);
      while col < width
        invariant 0 <= col <= width
        invariant line == seq(col, c requires 0 <= c < col => CellChar(board[row * width + c]))
      {
        line := line + [boardChars[RowColToIdx(width, row, col)]];
        col := col + 1;
      }
      s := s + line + ['\n'];
      row := row + 1;
    }
  }

  /** The first loop of `boardToString`: the character of every cell, in cell order. */
  method CellChars(board: seq<int>) returns (chars: string)
    ensures chars == seq(|board|, i requires 0 <= i < |board| => CellChar(board[i]))
  {
    chars := [];
    var k := 0;
    while k < |board|
      invariant 0 <= k <= |board|
      invariant chars == seq(k, i requires 0 <= i < k => CellChar(board[i]))
    {
      chars := chars + [CellChar(board[k])];
      k := k + 1;
    }
  }
}
