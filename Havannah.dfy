/**
 * The Havannah board: a hexagon with SIZE cells per side, stored in a
 * (2 SIZE - 1) x (2 SIZE - 1) square of which the two opposite triangles
 * are cut off. Stones are grouped into paths as on the Hex board; each main
 * path carries, as two six-bit masks, the sides and the corners of the
 * hexagon its group touches. A group wins when it touches three sides, two
 * corners, or forms a cycle. With the pie rule, the second player may take
 * over the first stone instead of moving.
 */
module Havannah {
  import opened Wrappers

  datatype Color = Black | White | NoColor

  datatype Player = Player0 | Player1 | PlayerNull

  /** A path: the index of its main path, its colour, and the sides and corners its group touches. */
  datatype PathInfo = PathInfo(mainPathIndex: int, color: Color, borders: bv32, corners: bv32)

  const EmptyPath := PathInfo(0, NoColor, 0, 0)

  function Opponent(c: Color): Color
  {
    if c == Black then White else Black
  }

  /** The side of the square the hexagon is stored in. */
  function FullSize(size: int): int
  {
    2 * size - 1
  }

  /** The (row, column) of a cell index. */
  function IndexToCell(size: int, index: int): (cell: (int, int))
    requires size >= 1
    ensures 0 <= index < FullSize(size) * FullSize(size) ==> 0 <= cell.0 < FullSize(size) && 0 <= cell.1 < FullSize(size)
  {
    DivBelow(index, FullSize(size));
    (index / FullSize(size), index % FullSize(size))
  }

  /** The row of an index in the square is in the square. */
  lemma DivBelow(k: int, n: int)
    requires n > 0
    ensures 0 <= k < n * n ==> 0 <= k / n < n
  {
    var q := k / n;
    assert k == q * n + k % n;
    assert q * n - n * n == (q - n) * n;
    ProductSign(q - n, n);
  }

  lemma ProductSign(a: int, b: int)
    requires b > 0
    ensures a >= 0 ==> a * b >= 0
  {
  }

  function CellToIndex(size: int, cell: (int, int)): int
  {
    cell.0 * FullSize(size) + cell.1
  }

  /** Inside the square. */
  predicate InSquare(size: int, cell: (int, int))
  {
    0 <= cell.0 < FullSize(size) && 0 <= cell.1 < FullSize(size)
  }

  /** Inside the hexagon: in the square, and neither of the two cut-off triangles. */
  predicate IsValidCell(size: int, cell: (int, int))
  {
    InSquare(size, cell) && size - 1 <= cell.0 + cell.1 <= 3 * size - 3
  }

  /** A hexagon cell's index; every such index lies in the square. */
  predicate IsValidIndex(size: int, index: int)
    requires size >= 1
    ensures IsValidIndex(size, index) ==> 0 <= index < FullSize(size) * FullSize(size)
  {
    var cell := IndexToCell(size, index);
    CellIndexInverse(size, 0, cell);
    IsValidCell(size, cell)
  }

  /** The two conversions are inverse on the square. */
  lemma CellIndexInverse(size: int, index: int, cell: (int, int))
    requires size >= 1
    ensures 0 <= index < FullSize(size) * FullSize(size) ==>
      InSquare(size, IndexToCell(size, index)) && CellToIndex(size, IndexToCell(size, index)) == index
    ensures InSquare(size, cell) ==>
      0 <= CellToIndex(size, cell) < FullSize(size) * FullSize(size) && IndexToCell(size, CellToIndex(size, cell)) == cell
  {
    var n := FullSize(size);
    if InSquare(size, cell) {
      var k := cell.0 * n + cell.1;
      MulBelow(cell.0, n);
      DivModUnique(k, n, cell.0, cell.1);
    }
  }

  lemma MulBelow(i: int, n: int)
    requires 0 <= i < n
    ensures 0 <= i * n <= n * n - n
  {
    assert i * n <= (n - 1) * n;
  }

  lemma DivModUnique(k: int, n: int, q: int, r: int)
    requires n > 0 && 0 <= r < n && k == q * n + r
    ensures k / n == q && k % n == r
  {
    var q', r' := k / n, k % n;
    assert (q - q') * n == r' - r;
    if q > q' {
      MulAtLeast(q - q', n);
    } else if q < q' {
      MulAtLeast(q' - q, n);
    }
  }

  lemma MulAtLeast(a: int, b: int)
    requires a >= 1 && b >= 0
    ensures a * b >= b
  {
  }

  /** The six candidate neighbours of (i, j), in the order the board lists them. */
  function Around(i: int, j: int): seq<(int, int)>
  {
    [(i - 1, j), (i - 1, j + 1), (i, j - 1), (i, j + 1), (i + 1, j - 1), (i + 1, j)]
  }

  /** The indices of the hexagon cells among `cells`, in order. */
  function ValidIndices(size: int, cells: seq<(int, int)>): (r: seq<int>)
    requires size >= 1
    ensures |r| <= |cells|
    ensures forall k :: 0 <= k < |r| ==> 0 <= r[k] < FullSize(size) * FullSize(size)
  {
    if |cells| == 0 then []
    else
      var rest := ValidIndices(size, cells[1..]);
      if IsValidCell(size, cells[0]) then
        CellIndexInverse(size, 0, cells[0]);
        [CellToIndex(size, cells[0])] + rest
      else rest
  }

  /** The neighbour list of a cell: its neighbours inside the hexagon. */
  function Neighbours(size: int, index: int): (r: seq<int>)
    requires size >= 1
    ensures |r| <= 6
    ensures forall k :: 0 <= k < |r| ==> 0 <= r[k] < FullSize(size) * FullSize(size)
  {
    var cell := IndexToCell(size, index);
    ValidIndices(size, Around(cell.0, cell.1))
  }

  /** A valid cell's index is among the neighbours exactly when the cell is among the candidates. */
  lemma {:induction false} ValidIndicesHas(size: int, cells: seq<(int, int)>, cell: (int, int))
    requires size >= 1 && IsValidCell(size, cell)
    ensures CellToIndex(size, cell) in ValidIndices(size, cells) <==> cell in cells
  {
    if |cells| > 0 {
      ValidIndicesHas(size, cells[1..], cell);
      assert cells == [cells[0]] + cells[1..];
      if IsValidCell(size, cells[0]) {
        IndexInjective(size, cells[0], cell);
      }
    }
  }

  /** Two cells of the square with the same index are the same cell. */
  lemma IndexInjective(size: int, a: (int, int), b: (int, int))
    requires size >= 1 && InSquare(size, a) && InSquare(size, b)
    ensures CellToIndex(size, a) == CellToIndex(size, b) <==> a == b
  {
    CellIndexInverse(size, 0, a);
    CellIndexInverse(size, 0, b);
  }

  /** Adjacency is symmetric: each of two hexagon cells is in the other's neighbour list. */
  lemma NeighbourSymmetric(size: int, a: (int, int), b: (int, int))
    requires size >= 1 && IsValidCell(size, a) && IsValidCell(size, b)
    ensures CellToIndex(size, b) in Neighbours(size, CellToIndex(size, a)) <==>
            CellToIndex(size, a) in Neighbours(size, CellToIndex(size, b))
  {
    CellIndexInverse(size, 0, a);
    CellIndexInverse(size, 0, b);
    ValidIndicesHas(size, Around(a.0, a.1), b);
    ValidIndicesHas(size, Around(b.0, b.1), a);
    AroundSymmetric(a, b);
  }

  /** The six offsets are closed under negation. */
  lemma AroundSymmetric(a: (int, int), b: (int, int))
    ensures b in Around(a.0, a.1) <==> a in Around(b.0, b.1)
  {
  }

  /*
   * The sides and corners of the hexagon, numbered clockwise from the top:
   * with e1 = SIZE - 1 and s1 = 2 SIZE - 2, corner 0 is (0, e1), corner 1
   * (0, s1), corner 2 (e1, s1), corner 3 (s1, e1), corner 4 (s1, 0) and
   * corner 5 (e1, 0); side k runs from corner k to corner k + 1, corners
   * excluded.
   */

  /** The side mask of a cell: bit k set when the cell is on side k. */
  function CellBorders(size: int, c: (int, int)): bv32
  {
    if !IsValidCell(size, c) then 0
    else
      var (i, j) := c;
      var e1, s1 := size - 1, FullSize(size) - 1;
      (if i == 0 && e1 < j < s1 then 1 else 0)
      + (if 0 < i < e1 && j == s1 then 2 else 0)
      + (if i + j == 3 * e1 && i < s1 && j < s1 then 4 else 0)
      + (if i == s1 && 0 < j < e1 then 8 else 0)
      + (if e1 < i < s1 && j == 0 then 16 else 0)
      + (if i + j == e1 && i > 0 && j > 0 then 32 else 0)
  }

  /** The corner mask of a cell: bit k set when the cell is corner k. */
  function CellCorners(size: int, c: (int, int)): bv32
  {
    if !IsValidCell(size, c) then 0
    else
      var (i, j) := c;
      var e1, s1 := size - 1, FullSize(size) - 1;
      (if i == 0 && j == e1 then 1 else 0)
      + (if i == 0 && j == s1 then 2 else 0)
      + (if i == e1 && j == s1 then 4 else 0)
      + (if i == s1 && j == e1 then 8 else 0)
      + (if i == s1 && j == 0 then 16 else 0)
      + (if i == e1 && j == 0 then 32 else 0)
  }

  function ComputeBorders(size: int, index: int): bv32
    requires size >= 1
  {
    CellBorders(size, IndexToCell(size, index))
  }

  function ComputeCorners(size: int, index: int): bv32
    requires size >= 1
  {
    CellCorners(size, IndexToCell(size, index))
  }

  /** The six corners of the hexagon. */
  predicate IsCorner(size: int, c: (int, int))
  {
    var e1, s1 := size - 1, FullSize(size) - 1;
    c == (0, e1) || c == (0, s1) || c == (e1, s1) || c == (s1, e1) || c == (s1, 0) || c == (e1, 0)
  }

  /** The cells on the rim of the hexagon. */
  predicate OnRim(size: int, c: (int, int))
  {
    var e1, s1 := size - 1, FullSize(size) - 1;
    IsValidCell(size, c) && (c.0 == 0 || c.1 == s1 || c.0 + c.1 == 3 * e1 || c.0 == s1 || c.1 == 0 || c.0 + c.1 == e1)
  }

  /** At most one bit set. */
  predicate AtMostOneBit(x: bv32)
  {
    x & (x - 1) == 0
  }

  /** On a hexagon of side at least 2, a cell is at most one corner, and has a corner bit exactly when it is a corner. */
  lemma CornerMask(size: int, c: (int, int))
    requires size >= 2
    ensures AtMostOneBit(CellCorners(size, c))
    ensures CellCorners(size, c) != 0 <==> IsValidCell(size, c) && IsCorner(size, c)
  {
    var e1, s1 := size - 1, FullSize(size) - 1;
    var (i, j) := c;
    if !IsValidCell(size, c) {
      CornerCase(size, c, 0);
    } else if (i == 0 && j == e1) || (i == 0 && j == s1) || (i == e1 && j == s1) {
      UpperCorners(size, c);
    } else {
      LowerCorners(size, c);
    }
  }

  /** The three upper corners of the hexagon. */
  lemma UpperCorners(size: int, c: (int, int))
    requires size >= 2 && IsValidCell(size, c)
    requires var (e1, s1, i, j) := (size - 1, FullSize(size) - 1, c.0, c.1);
      (i == 0 && j == e1) || (i == 0 && j == s1) || (i == e1 && j == s1)
    ensures AtMostOneBit(CellCorners(size, c))
    ensures CellCorners(size, c) != 0 <==> IsValidCell(size, c) && IsCorner(size, c)
  {
    var e1, s1 := size - 1, FullSize(size) - 1;
    var (i, j) := c;
    if i == 0 && j == e1 {
      CornerCase(size, c, 1);
    } else if i == 0 && j == s1 {
      CornerCase(size, c, 2);
    } else {
      CornerCase(size, c, 4);
    }
  }

  /** The three lower corners of the hexagon, and the cells that are no corner. */
  lemma LowerCorners(size: int, c: (int, int))
    requires size >= 2 && IsValidCell(size, c)
    requires var (e1, s1, i, j) := (size - 1, FullSize(size) - 1, c.0, c.1);
      !((i == 0 && j == e1) || (i == 0 && j == s1) || (i == e1 && j == s1))
    ensures AtMostOneBit(CellCorners(size, c))
    ensures CellCorners(size, c) != 0 <==> IsValidCell(size, c) && IsCorner(size, c)
  {
    var e1, s1 := size - 1, FullSize(size) - 1;
    var (i, j) := c;
    if i == s1 && j == e1 {
      CornerCase(size, c, 8);
    } else if i == s1 && j == 0 {
      CornerCase(size, c, 16);
    } else if i == e1 && j == 0 {
      CornerCase(size, c, 32);
    } else {
      CornerCase(size, c, 0);
    }
  }

  /** One case of the corner mask: its value has at most one bit, and is not zero exactly on a corner. */
  lemma CornerCase(size: int, c: (int, int), v: bv32)
    requires size >= 2 && CellCorners(size, c) == v && AtMostOneBit(v)
    requires v != 0 <==> IsValidCell(size, c) && IsCorner(size, c)
    ensures AtMostOneBit(CellCorners(size, c))
    ensures CellCorners(size, c) != 0 <==> IsValidCell(size, c) && IsCorner(size, c)
  {
  }

  /** On a hexagon of side at least 2, a cell is on at most one side, and has a side bit exactly when it is on the rim but not a corner. */
  lemma BorderMask(size: int, c: (int, int))
    requires size >= 2
    ensures AtMostOneBit(CellBorders(size, c))
    ensures CellBorders(size, c) != 0 <==> OnRim(size, c) && !IsCorner(size, c)
  {
    var e1, s1 := size - 1, FullSize(size) - 1;
    var (i, j) := c;
    if !IsValidCell(size, c) {
      BorderCase(size, c, 0);
    } else if (i == 0 && e1 < j < s1) || (0 < i < e1 && j == s1) || (i + j == 3 * e1 && i < s1 && j < s1 && i != e1 && j != e1) {
      UpperBorders(size, c);
    } else {
      LowerBorders(size, c);
    }
  }

  /** The three upper sides of the hexagon: the top row, the right column and the lower-right diagonal. */
  lemma UpperBorders(size: int, c: (int, int))
    requires size >= 2 && IsValidCell(size, c)
    requires var (e1, s1, i, j) := (size - 1, FullSize(size) - 1, c.0, c.1);
      (i == 0 && e1 < j < s1) || (0 < i < e1 && j == s1) || (i + j == 3 * e1 && i < s1 && j < s1 && i != e1 && j != e1)
    ensures AtMostOneBit(CellBorders(size, c))
    ensures CellBorders(size, c) != 0 <==> OnRim(size, c) && !IsCorner(size, c)
  {
    var e1, s1 := size - 1, FullSize(size) - 1;
    var (i, j) := c;
    if i == 0 && e1 < j < s1 {
      BorderCase(size, c, 1);
    } else if 0 < i < e1 && j == s1 {
      BorderCase(size, c, 2);
    } else {
      BorderCase(size, c, 4);
    }
  }

  /** The three lower sides of the hexagon, and the cells on no side. */
  lemma LowerBorders(size: int, c: (int, int))
    requires size >= 2 && IsValidCell(size, c)
    requires var (e1, s1, i, j) := (size - 1, FullSize(size) - 1, c.0, c.1);
      !((i == 0 && e1 < j < s1) || (0 < i < e1 && j == s1) || (i + j == 3 * e1 && i < s1 && j < s1 && i != e1 && j != e1))
    ensures AtMostOneBit(CellBorders(size, c))
    ensures CellBorders(size, c) != 0 <==> OnRim(size, c) && !IsCorner(size, c)
  {
    var e1, s1 := size - 1, FullSize(size) - 1;
    var (i, j) := c;
    if i == s1 && 0 < j < e1 {
      BorderCase(size, c, 8);
    } else if e1 < i < s1 && j == 0 {
      BorderCase(size, c, 16);
    } else if i + j == e1 && i > 0 && j > 0 {
      BorderCase(size, c, 32);
    } else {
      BorderCase(size, c, 0);
    }
  }

  /** One case of the side mask: its value has at most one bit, and is not zero exactly on the rim off the corners. */
  lemma BorderCase(size: int, c: (int, int), v: bv32)
    requires size >= 2 && CellBorders(size, c) == v && AtMostOneBit(v)
    requires v != 0 <==> OnRim(size, c) && !IsCorner(size, c)
    ensures AtMostOneBit(CellBorders(size, c))
    ensures CellBorders(size, c) != 0 <==> OnRim(size, c) && !IsCorner(size, c)
  {
  }

  /** No cell has both a side bit and a corner bit, and an interior cell has neither. */
  lemma CellMasks(size: int, c: (int, int))
    requires size >= 2
    ensures CellBorders(size, c) == 0 || CellCorners(size, c) == 0
    ensures !OnRim(size, c) ==> CellBorders(size, c) == 0 && CellCorners(size, c) == 0
  {
    CornerMask(size, c);
    BorderMask(size, c);
  }

  /** Two different corners have different corner bits, so together they count two. */
  lemma TwoCorners(size: int, a: (int, int), b: (int, int))
    requires size >= 2 && IsValidCell(size, a) && IsValidCell(size, b) && IsCorner(size, a) && IsCorner(size, b) && a != b
    ensures NbOnes(CellCorners(size, a) | CellCorners(size, b)) == 2
  {
  }

  /** The cases of the board's own test of sides and corners, on a side of 8. */
  lemma SideAndCornerCases()
    ensures CellBorders(8, (7, 7)) == 0 && CellCorners(8, (7, 7)) == 0
    ensures CellCorners(8, (0, 7)) == 1 && CellBorders(8, (0, 8)) == 1 && CellBorders(8, (1, 6)) == 32
    ensures CellCorners(8, (0, 14)) == 2 && CellBorders(8, (0, 13)) == 1 && CellBorders(8, (1, 14)) == 2
    ensures CellCorners(8, (7, 14)) == 4 && CellBorders(8, (6, 14)) == 2 && CellBorders(8, (8, 13)) == 4
    ensures CellCorners(8, (14, 7)) == 8 && CellBorders(8, (13, 8)) == 4 && CellBorders(8, (14, 6)) == 8
    ensures CellCorners(8, (14, 0)) == 16 && CellBorders(8, (13, 0)) == 16 && CellBorders(8, (14, 1)) == 8
    ensures CellCorners(8, (7, 0)) == 32 && CellBorders(8, (6, 1)) == 32 && CellBorders(8, (8, 0)) == 16
  {
  }

  /** The number of ones among the six low bits, one shift at a time. */
  function NbOnes(f: bv32): int
  {
    (f & 1) as int + ((f >> 1) & 1) as int + ((f >> 2) & 1) as int
    + ((f >> 3) & 1) as int + ((f >> 4) & 1) as int + ((f >> 5) & 1) as int
  }

  /** The number of set bits below bit `w`. */
  function Ones(f: bv32, w: nat): nat
    requires w <= 32
  {
    if w == 0 then 0 else Ones(f, w - 1) + (if f & (1 << (w - 1)) != 0 then 1 else 0)
  }

  /** The shifts count the set bits among the six low bits, and the bits above do not matter. */
  lemma NbOnesCounts(f: bv32)
    ensures NbOnes(f) == Ones(f, 6)
    ensures NbOnes(f) == NbOnes(f & 63)
  {
    assert Ones(f, 1) == (f & 1) as int;
    assert Ones(f, 2) == Ones(f, 1) + ((f >> 1) & 1) as int;
    assert Ones(f, 3) == Ones(f, 2) + ((f >> 2) & 1) as int;
    assert Ones(f, 4) == Ones(f, 3) + ((f >> 3) & 1) as int;
    assert Ones(f, 5) == Ones(f, 4) + ((f >> 4) & 1) as int;
    assert Ones(f, 6) == Ones(f, 5) + ((f >> 5) & 1) as int;
  }

  /** Adding bits never lowers the count; a mask with at most one bit counts at most one. */
  lemma NbOnesBounds(a: bv32, b: bv32)
    ensures NbOnes(a) <= NbOnes(a | b)
    ensures AtMostOneBit(a) ==> NbOnes(a) <= 1
  {
  }

  /** The number of hexagon cells among the indices below `n`. */
  function ValidCount(size: int, n: int): nat
    requires size >= 1
  {
    if n <= 0 then 0 else ValidCount(size, n - 1) + (if IsValidIndex(size, n - 1) then 1 else 0)
  }

  /** The number of hexagon cells (i, j') with j' < j. */
  function RowCount(size: int, i: int, j: int): nat
  {
    if j <= 0 then 0 else RowCount(size, i, j - 1) + (if IsValidCell(size, (i, j - 1)) then 1 else 0)
  }

  lemma {:induction false} RowPrefix(size: int, i: int, j: int)
    requires size >= 1 && 0 <= i < FullSize(size) && 0 <= j <= FullSize(size)
    ensures ValidCount(size, i * FullSize(size) + j) == ValidCount(size, i * FullSize(size)) + RowCount(size, i, j)
  {
    if j > 0 {
      RowPrefix(size, i, j - 1);
      CellIndexInverse(size, 0, (i, j - 1));
    }
  }

  /** Row i holds the columns from max(0, SIZE - 1 - i) up to min(2 SIZE - 2, 3 SIZE - 3 - i). */
  lemma {:induction false} RowSpan(size: int, i: int, j: int)
    requires size >= 1 && 0 <= i < FullSize(size) && 0 <= j <= FullSize(size)
    ensures var lo := if i < size then size - 1 - i else 0;
            var hi := if i < size then FullSize(size) else 3 * size - 2 - i;
            RowCount(size, i, j) == if j <= lo then 0 else if j <= hi then j - lo else hi - lo
  {
    if j > 0 {
      RowSpan(size, i, j - 1);
    }
  }

  /** The cells row i loses to the two cut-off triangles. */
  function Cut(size: int, i: int): int
  {
    if i < size then size - 1 - i else i - size + 1
  }

  /** The cells the first r rows lose to the cut-off triangles. */
  function CutTotal(size: int, r: int): int
  {
    if r <= 0 then 0 else CutTotal(size, r - 1) + Cut(size, r - 1)
  }

  /** The first r rows of the square hold r (2 SIZE - 1) cells, less those cut off. */
  lemma {:induction false} Rows(size: int, r: int)
    requires size >= 1 && 0 <= r <= FullSize(size)
    ensures ValidCount(size, r * FullSize(size)) + CutTotal(size, r) == r * FullSize(size)
  {
    if r > 0 {
      var n := FullSize(size);
      Rows(size, r - 1);
      RowPrefix(size, r - 1, n);
      RowFull(size, r - 1);
      assert (r - 1) * n + n == r * n;
    }
  }

  /** A whole row holds 2 SIZE - 1 cells less those cut off. */
  lemma RowFull(size: int, i: int)
    requires size >= 1 && 0 <= i < FullSize(size)
    ensures RowCount(size, i, FullSize(size)) == FullSize(size) - Cut(size, i)
  {
    RowSpan(size, i, FullSize(size));
  }

  /** 1 + 2 + ... + k. */
  function Triangle(k: int): int
  {
    if k <= 0 then 0 else Triangle(k - 1) + k
  }

  lemma {:induction false} TriangleClosed(k: nat)
    ensures 2 * Triangle(k) == k * (k + 1)
  {
    if k > 0 {
      TriangleClosed(k - 1);
      assert k * (k + 1) == (k - 1) * k + 2 * k;
    }
  }

  /**
   * The rows above the middle lose SIZE - 1, SIZE - 2, ..., 0 cells to the
   * upper triangle and the rows below it 1, 2, ..., SIZE - 1 to the lower one.
   */
  lemma {:induction false} CutSum(size: int, r: int)
    requires size >= 1 && 0 <= r
    ensures CutTotal(size, r) == if r <= size then Triangle(size - 1) - Triangle(size - 1 - r) else Triangle(size - 1) + Triangle(r - size)
  {
    if r > 0 {
      CutSum(size, r - 1);
    }
  }

  /** The hexagon has (2 SIZE - 1)^2 - SIZE (SIZE - 1) cells: the square without its two cut-off triangles. */
  lemma HexagonCells(size: int)
    requires size >= 1
    ensures ValidCount(size, FullSize(size) * FullSize(size)) == FullSize(size) * FullSize(size) - (size - 1) * size
  {
    var n := FullSize(size);
    Rows(size, n);
    CutSum(size, n);
    TriangleClosed(size - 1);
    if n > size {
      assert n - size == size - 1;
    } else {
      assert size == 1 && n == 1;
    }
  }

  /** At least one cell of the square, the corner (0, 0), is outside the hexagon. */
  lemma {:induction false} ValidCountBelow(size: int, n: int)
    requires size >= 2 && n >= 1
    ensures ValidCount(size, n) <= n - 1
  {
    if n > 1 {
      ValidCountBelow(size, n - 1);
    } else {
      assert IndexToCell(size, 0) == (0, 0);
    }
  }

  /** The path table below `end`: path 0 is the empty path; every other path names a main path at or below itself, which is its own main path and has its colour. */
  ghost predicate PathsWellFormed(ps: seq<PathInfo>, end: int)
  {
    && 1 <= end <= |ps|
    && ps[0] == EmptyPath
    && forall k :: 1 <= k < end ==>
         && 1 <= ps[k].mainPathIndex <= k
         && ps[k].color != NoColor
         && ps[ps[k].mainPathIndex].mainPathIndex == ps[k].mainPathIndex
         && ps[ps[k].mainPathIndex].color == ps[k].color
  }

  /** Every cell on a path below `end`. */
  ghost predicate CellsIn(pb: seq<int>, end: int)
  {
    forall c :: 0 <= c < |pb| ==> 0 <= pb[c] < end
  }

  ghost predicate BoardWellFormed(ps: seq<PathInfo>, pb: seq<int>, end: int)
  {
    PathsWellFormed(ps, end) && CellsIn(pb, end)
  }

  /** The main path of the stone on cell `c` (0 for an empty cell). */
  function MainAt(ps: seq<PathInfo>, pb: seq<int>, c: int): int
    requires 0 <= c < |pb| && 0 <= pb[c] < |ps|
  {
    ps[pb[c]].mainPathIndex
  }

  function ColorAt(ps: seq<PathInfo>, pb: seq<int>, c: int): Color
    requires 0 <= c < |pb| && 0 <= pb[c] < |ps|
  {
    ps[pb[c]].color
  }

  /** A stone on a cell is exactly a cell off the empty path 0. */
  lemma ColoredIffOccupied(ps: seq<PathInfo>, pb: seq<int>, end: int, c: int)
    requires BoardWellFormed(ps, pb, end) && 0 <= c < |pb|
    ensures ColorAt(ps, pb, c) == NoColor <==> pb[c] == 0
    ensures MainAt(ps, pb, c) == 0 <==> pb[c] == 0
  {
  }

  /** The empty cells of the hexagon, in increasing order. */
  function EmptyCells(size: int, pb: seq<int>): seq<int>
    requires size >= 1
  {
    if |pb| == 0 then []
    else
      var front := EmptyCells(size, pb[..|pb| - 1]);
      if IsValidIndex(size, |pb| - 1) && pb[|pb| - 1] == 0 then front + [|pb| - 1] else front
  }

  /** The empty hexagon cells are listed once each, in increasing order, and nothing else is. */
  lemma {:induction false} EmptyCellsAre(size: int, pb: seq<int>)
    requires size >= 1
    ensures var r := EmptyCells(size, pb);
            && (forall k :: 0 <= k < |r| ==> 0 <= r[k] < |pb| && IsValidIndex(size, r[k]) && pb[r[k]] == 0)
            && (forall c :: 0 <= c < |pb| && IsValidIndex(size, c) && pb[c] == 0 ==> c in r)
            && (forall a, b :: 0 <= a < b < |r| ==> r[a] < r[b])
  {
    if |pb| > 0 {
      var front := pb[..|pb| - 1];
      EmptyCellsAre(size, front);
      assert forall c :: 0 <= c < |front| ==> front[c] == pb[c];
    }
  }

  /** Filling one empty hexagon cell leaves one empty cell fewer. */
  lemma {:induction false} FillOne(size: int, pb: seq<int>, c: int, v: int)
    requires size >= 1 && 0 <= c < |pb| && IsValidIndex(size, c) && pb[c] == 0 && v != 0
    ensures |EmptyCells(size, pb[c := v])| == |EmptyCells(size, pb)| - 1
  {
    var n := |pb| - 1;
    if c < n {
      assert pb[c := v][..n] == pb[..n][c := v];
      FillOne(size, pb[..n], c, v);
    } else {
      assert pb[c := v][..n] == pb[..n];
    }
  }

  /** On the empty board every hexagon cell is empty. */
  lemma {:induction false} AllEmpty(size: int, n: nat)
    requires size >= 1
    ensures |EmptyCells(size, seq(n, _ => 0))| == ValidCount(size, n)
  {
    if n > 0 {
      assert seq(n, _ => 0)[..n - 1] == seq(n - 1, _ => 0);
      AllEmpty(size, n - 1);
    }
  }

  function ColorToPlayer(color: Color, hasPie: bool): (p: Player)
    ensures p == PlayerNull <==> color == NoColor
  {
    if color == NoColor then PlayerNull
    else if color == Black then (if hasPie then Player1 else Player0)
    else (if hasPie then Player0 else Player1)
  }

  /** The two colours belong to different players, and taking the pie swaps who owns each. */
  lemma PlayersDistinct(color: Color, hasPie: bool)
    requires color != NoColor
    ensures ColorToPlayer(Opponent(color), hasPie) != ColorToPlayer(color, hasPie)
    ensures ColorToPlayer(color, !hasPie) == ColorToPlayer(Opponent(color), hasPie)
  {
  }

  /** The bits of `a` are among those of `b`. */
  predicate Within(a: bv32, b: bv32)
  {
    a | b == b
  }

  /**
   * What the neighbours of a new stone of `color` contribute: the main paths
   * of those of its colour, the sides and corners those paths and the stone
   * itself (`b`) touch, and the smallest of those main paths, `end` when
   * there is none.
   */
  datatype Gathered = Gathered(mains: set<int>, borders: bv32, corners: bv32, least: int)

  /** The main paths of the neighbours of `color` and the smallest of them (`end` when there is none). */
  function Groups(ps: seq<PathInfo>, pb: seq<int>, nbs: seq<int>, color: Color, end: int): (r: (set<int>, int))
    requires BoardWellFormed(ps, pb, end) && color != NoColor
    requires forall k :: 0 <= k < |nbs| ==> 0 <= nbs[k] < |pb|
    ensures 1 <= r.1 <= end && (r.0 == {} <==> r.1 == end)
  {
    if |nbs| == 0 then ({}, end)
    else
      var (mains, least) := Groups(ps, pb, nbs[..|nbs| - 1], color, end);
      var c := nbs[|nbs| - 1];
      if ColorAt(ps, pb, c) == color then
        var r := MainAt(ps, pb, c);
        (mains + {r}, Min(least, r))
      else (mains, least)
  }

  /** Per neighbour, the main path of its group when it has colour `color`, and the empty path otherwise. */
  function GroupPaths(ps: seq<PathInfo>, pb: seq<int>, nbs: seq<int>, color: Color, end: int): (qs: seq<PathInfo>)
    requires BoardWellFormed(ps, pb, end)
    requires forall k :: 0 <= k < |nbs| ==> 0 <= nbs[k] < |pb|
    ensures |qs| == |nbs|
  {
    seq(|nbs|, k requires 0 <= k < |nbs| =>
      if ColorAt(ps, pb, nbs[k]) == color then ps[MainAt(ps, pb, nbs[k])] else EmptyPath)
  }

  /** The sides a path touches. */
  function Borders(p: PathInfo): bv32
  {
    p.borders
  }

  /** The corners a path touches. */
  function Corners(p: PathInfo): bv32
  {
    p.corners
  }

  /** `x` joined with the mask `sel` picks from every path of `qs`, left to right. */
  function OrAll(x: bv32, qs: seq<PathInfo>, sel: PathInfo -> bv32): bv32
  {
    if |qs| == 0 then x else OrAll(x, qs[..|qs| - 1], sel) | sel(qs[|qs| - 1])
  }

  function Gather(ps: seq<PathInfo>, pb: seq<int>, nbs: seq<int>, color: Color, end: int, b: (bv32, bv32)): (g: Gathered)
    requires BoardWellFormed(ps, pb, end) && color != NoColor
    requires forall k :: 0 <= k < |nbs| ==> 0 <= nbs[k] < |pb|
    ensures 1 <= g.least <= end && (g.mains == {} <==> g.least == end)
  {
    var (mains, least) := Groups(ps, pb, nbs, color, end);
    var qs := GroupPaths(ps, pb, nbs, color, end);
    Gathered(mains, OrAll(b.0, qs, Borders), OrAll(b.1, qs, Corners), least)
  }

  /** Joining keeps the bits of the first mask. */
  lemma {:induction false} OrAllKeeps(x: bv32, qs: seq<PathInfo>, sel: PathInfo -> bv32)
    ensures Within(x, OrAll(x, qs, sel))
  {
    if |qs| > 0 {
      OrAllKeeps(x, qs[..|qs| - 1], sel);
      WithinOr(x, OrAll(x, qs[..|qs| - 1], sel), sel(qs[|qs| - 1]));
    }
  }

  /** Joining nothing but zero masks changes nothing. */
  lemma {:induction false} OrAllZeros(x: bv32, qs: seq<PathInfo>, sel: PathInfo -> bv32)
    requires forall k :: 0 <= k < |qs| ==> sel(qs[k]) == 0
    ensures OrAll(x, qs, sel) == x
  {
    if |qs| > 0 {
      OrAllZeros(x, qs[..|qs| - 1], sel);
      OrZero(OrAll(x, qs[..|qs| - 1], sel));
    }
  }

  lemma OrZero(x: bv32)
    ensures x | 0 == x
  {
  }

  /** Joining the mask of one more path of a sequence, prefix by prefix. */
  lemma OrAllJoin(x: bv32, qs: seq<PathInfo>, i: int, sel: PathInfo -> bv32, y: bv32, m: bv32)
    requires 0 <= i < |qs| && y == OrAll(x, qs[..i], sel) && sel(qs[i]) == m
    ensures y | m == OrAll(x, qs[..i + 1], sel)
  {
    assert qs[..i + 1][..i] == qs[..i];
  }

  /** A path with an empty mask leaves the join as it was. */
  lemma OrAllSkip(x: bv32, qs: seq<PathInfo>, i: int, sel: PathInfo -> bv32, y: bv32)
    requires 0 <= i < |qs| && y == OrAll(x, qs[..i], sel) && sel(qs[i]) == 0
    ensures y == OrAll(x, qs[..i + 1], sel)
  {
    assert qs[..i + 1][..i] == qs[..i];
    OrZero(y);
  }

  /** Joining keeps the bits of every joined mask. */
  lemma {:induction false} OrAllHas(x: bv32, qs: seq<PathInfo>, sel: PathInfo -> bv32, k: int)
    requires 0 <= k < |qs|
    ensures Within(sel(qs[k]), OrAll(x, qs, sel))
  {
    var front := qs[..|qs| - 1];
    WithinOr(sel(qs[k]), OrAll(x, front, sel), sel(qs[|qs| - 1]));
    if k < |front| {
      OrAllHas(x, front, sel, k);
    }
  }

  /**
   * The gathered main paths are main paths of the stone's colour, and the
   * least of them is their minimum (`end` when there is none).
   */
  lemma {:induction false} GatherSpec(ps: seq<PathInfo>, pb: seq<int>, nbs: seq<int>, color: Color, end: int, b: (bv32, bv32))
    requires BoardWellFormed(ps, pb, end) && color != NoColor
    requires forall k :: 0 <= k < |nbs| ==> 0 <= nbs[k] < |pb|
    ensures var g := Gather(ps, pb, nbs, color, end, b);
            && (forall r :: r in g.mains ==> 1 <= r < end && ps[r].mainPathIndex == r && ps[r].color == color)
            && (g.mains == {} ==> g.least == end)
            && (g.mains != {} ==> g.least in g.mains && forall r :: r in g.mains ==> g.least <= r)
  {
    GroupsSpec(ps, pb, nbs, color, end);
  }

  lemma {:induction false} GroupsSpec(ps: seq<PathInfo>, pb: seq<int>, nbs: seq<int>, color: Color, end: int)
    requires BoardWellFormed(ps, pb, end) && color != NoColor
    requires forall k :: 0 <= k < |nbs| ==> 0 <= nbs[k] < |pb|
    ensures var (mains, least) := Groups(ps, pb, nbs, color, end);
            && (forall r :: r in mains ==> 1 <= r < end && ps[r].mainPathIndex == r && ps[r].color == color)
            && (mains != {} ==> least in mains && forall r :: r in mains ==> least <= r)
  {
    if |nbs| > 0 {
      GroupsSpec(ps, pb, nbs[..|nbs| - 1], color, end);
    }
  }

  /** The gathered main paths are those of the neighbours of the same colour. */
  lemma {:induction false} GatherMains(ps: seq<PathInfo>, pb: seq<int>, nbs: seq<int>, color: Color, end: int, b: (bv32, bv32), r: int)
    requires BoardWellFormed(ps, pb, end) && color != NoColor
    requires forall k :: 0 <= k < |nbs| ==> 0 <= nbs[k] < |pb|
    ensures r in Gather(ps, pb, nbs, color, end, b).mains <==>
      exists k :: 0 <= k < |nbs| && ColorAt(ps, pb, nbs[k]) == color && MainAt(ps, pb, nbs[k]) == r
  {
    GroupsMains(ps, pb, nbs, color, end, r);
  }

  lemma {:induction false} GroupsMains(ps: seq<PathInfo>, pb: seq<int>, nbs: seq<int>, color: Color, end: int, r: int)
    requires BoardWellFormed(ps, pb, end) && color != NoColor
    requires forall k :: 0 <= k < |nbs| ==> 0 <= nbs[k] < |pb|
    ensures r in Groups(ps, pb, nbs, color, end).0 <==>
      exists k :: 0 <= k < |nbs| && ColorAt(ps, pb, nbs[k]) == color && MainAt(ps, pb, nbs[k]) == r
  {
    if |nbs| > 0 {
      var front := nbs[..|nbs| - 1];
      GroupsMains(ps, pb, front, color, end, r);
      if exists k :: 0 <= k < |front| && ColorAt(ps, pb, front[k]) == color && MainAt(ps, pb, front[k]) == r {
        var k :| 0 <= k < |front| && ColorAt(ps, pb, front[k]) == color && MainAt(ps, pb, front[k]) == r;
        assert nbs[k] == front[k];
      }
      if exists k :: 0 <= k < |nbs| && ColorAt(ps, pb, nbs[k]) == color && MainAt(ps, pb, nbs[k]) == r {
        var k :| 0 <= k < |nbs| && ColorAt(ps, pb, nbs[k]) == color && MainAt(ps, pb, nbs[k]) == r;
        if k < |front| {
          assert front[k] == nbs[k];
        }
      }
    }
  }

  /** The masks of the group of every neighbour of the stone's colour are among the gathered ones. */
  lemma GatherHas(ps: seq<PathInfo>, pb: seq<int>, nbs: seq<int>, color: Color, end: int, b: (bv32, bv32), k: int)
    requires BoardWellFormed(ps, pb, end) && color != NoColor
    requires forall k :: 0 <= k < |nbs| ==> 0 <= nbs[k] < |pb|
    requires 0 <= k < |nbs| && ColorAt(ps, pb, nbs[k]) == color
    ensures var g := Gather(ps, pb, nbs, color, end, b);
            Within(ps[MainAt(ps, pb, nbs[k])].borders, g.borders) && Within(ps[MainAt(ps, pb, nbs[k])].corners, g.corners)
  {
    OrAllHas(b.0, GroupPaths(ps, pb, nbs, color, end), Borders, k);
    OrAllHas(b.1, GroupPaths(ps, pb, nbs, color, end), Corners, k);
  }

  /**
   * The gathered masks hold the stone's own and those of the least gathered
   * path; with no path gathered they are the stone's own.
   */
  lemma GatherMasks(ps: seq<PathInfo>, pb: seq<int>, nbs: seq<int>, color: Color, end: int, b: (bv32, bv32))
    requires BoardWellFormed(ps, pb, end) && color != NoColor
    requires forall k :: 0 <= k < |nbs| ==> 0 <= nbs[k] < |pb|
    ensures var g := Gather(ps, pb, nbs, color, end, b);
            && (g.mains == {} ==> g.borders == b.0 && g.corners == b.1)
            && Within(b.0, g.borders) && Within(b.1, g.corners)
            && (g.mains != {} ==> Within(ps[g.least].borders, g.borders) && Within(ps[g.least].corners, g.corners))
  {
    var g := Gather(ps, pb, nbs, color, end, b);
    GatherSpec(ps, pb, nbs, color, end, b);
    OrAllKeeps(b.0, GroupPaths(ps, pb, nbs, color, end), Borders);
    OrAllKeeps(b.1, GroupPaths(ps, pb, nbs, color, end), Corners);
    if g.mains == {} {
      LoneMasks(ps, pb, nbs, color, end, b);
    } else {
      JoinedMasks(ps, pb, nbs, color, end, b);
    }
  }

  /** Without a friendly neighbour, the stone keeps the masks it starts from. */
  lemma LoneMasks(ps: seq<PathInfo>, pb: seq<int>, nbs: seq<int>, color: Color, end: int, b: (bv32, bv32))
    requires BoardWellFormed(ps, pb, end) && color != NoColor
    requires forall k :: 0 <= k < |nbs| ==> 0 <= nbs[k] < |pb|
    requires Gather(ps, pb, nbs, color, end, b).mains == {}
    ensures var g := Gather(ps, pb, nbs, color, end, b);
            g.borders == b.0 && g.corners == b.1
  {
    GatherSpec(ps, pb, nbs, color, end, b);
    forall k | 0 <= k < |nbs|
      ensures ColorAt(ps, pb, nbs[k]) != color
    {
      GatherMains(ps, pb, nbs, color, end, b, MainAt(ps, pb, nbs[k]));
    }
    OrAllZeros(b.0, GroupPaths(ps, pb, nbs, color, end), Borders);
    OrAllZeros(b.1, GroupPaths(ps, pb, nbs, color, end), Corners);
  }

  /** With a friendly neighbour, the gathered masks hold those of the smallest main path. */
  lemma JoinedMasks(ps: seq<PathInfo>, pb: seq<int>, nbs: seq<int>, color: Color, end: int, b: (bv32, bv32))
    requires BoardWellFormed(ps, pb, end) && color != NoColor
    requires forall k :: 0 <= k < |nbs| ==> 0 <= nbs[k] < |pb|
    requires Gather(ps, pb, nbs, color, end, b).mains != {}
    ensures var g := Gather(ps, pb, nbs, color, end, b);
            0 <= g.least < |ps| && Within(ps[g.least].borders, g.borders) && Within(ps[g.least].corners, g.corners)
  {
    var g := Gather(ps, pb, nbs, color, end, b);
    GatherSpec(ps, pb, nbs, color, end, b);
    GatherMains(ps, pb, nbs, color, end, b, g.least);
    var k :| 0 <= k < |nbs| && ColorAt(ps, pb, nbs[k]) == color && MainAt(ps, pb, nbs[k]) == g.least;
    GatherHas(ps, pb, nbs, color, end, b, k);
  }

  /** Joining masks keeps the bits of both. */
  lemma WithinOr(a: bv32, b: bv32, c: bv32)
    ensures Within(a, b) ==> Within(a, b | c)
    ensures Within(c, b | c)
  {
  }

  /** A path that takes on further sides and corners. */
  function WithMasks(p: PathInfo, borders: bv32, corners: bv32): PathInfo
  {
    p.(borders := p.borders | borders, corners := p.corners | corners)
  }

  /** The main path with the masks of the joined group. */
  function JoinedMain(ps: seq<PathInfo>, m: int, borders: bv32, corners: bv32): PathInfo
    requires 0 <= m < |ps|
  {
    WithMasks(ps[m], borders, corners)
  }

  /**
   * The path table once the groups `mains` are joined under `m`: the main
   * path takes the masks, and every path above it that belonged to another
   * joined group becomes a copy of it.
   */
  function Joined(ps: seq<PathInfo>, m: int, mains: set<int>, end: int, borders: bv32, corners: bv32): (r: seq<PathInfo>)
    requires 0 <= m < |ps|
    ensures |r| == |ps|
  {
    var main := JoinedMain(ps, m, borders, corners);
    seq(|ps|, k requires 0 <= k < |ps| =>
      if k == m || (m < k < end && ps[k].mainPathIndex in mains && ps[k].mainPathIndex != m) then main else ps[k])
  }

  /** A table that has the joined main path at `m` and at every path above it of another joined group, and is otherwise `ps`, is the joined table. */
  lemma JoinedIs(ps: seq<PathInfo>, m: int, mains: set<int>, end: int, borders: bv32, corners: bv32,
                 main: PathInfo, others: set<int>, qs: seq<PathInfo>)
    requires 0 <= m < |ps| == |qs| && main == JoinedMain(ps, m, borders, corners) && others == mains - {m}
    requires forall j :: 0 <= j < |qs| ==> qs[j] == if j == m || (m < j < end && ps[j].mainPathIndex in others) then main else ps[j]
    ensures qs == Joined(ps, m, mains, end, borders, corners)
  {
  }

  /**
   * Joining keeps the table well formed: every path of a joined group now
   * has `m` as main path, every other path keeps its main path, and no
   * path changes colour.
   */
  lemma JoinedWellFormed(ps: seq<PathInfo>, m: int, mains: set<int>, end: int, borders: bv32, corners: bv32, color: Color, k: int)
    requires PathsWellFormed(ps, end)
    requires forall r :: r in mains ==> 1 <= r < end && ps[r].mainPathIndex == r && ps[r].color == color
    requires m in mains && forall r :: r in mains ==> m <= r
    requires 0 <= k < end
    ensures PathsWellFormed(Joined(ps, m, mains, end, borders, corners), end)
    ensures Joined(ps, m, mains, end, borders, corners)[k].mainPathIndex == if ps[k].mainPathIndex in mains then m else ps[k].mainPathIndex
    ensures Joined(ps, m, mains, end, borders, corners)[k].color == ps[k].color
  {
    var js := Joined(ps, m, mains, end, borders, corners);
    forall j | 1 <= j < end
      ensures 1 <= js[j].mainPathIndex <= j
      ensures js[j].color != NoColor
      ensures js[js[j].mainPathIndex].mainPathIndex == js[j].mainPathIndex
      ensures js[js[j].mainPathIndex].color == js[j].color
    {
      var r := ps[j].mainPathIndex;
      if r in mains {
        assert m <= r <= j;
      } else {
        assert r != m;
        assert js[r] == ps[r];
      }
    }
  }

  /**
   * The path table, the board and the end of the table once a stone of
   * `color` is on `index`: a path of its own when it joins no group,
   * otherwise the joined groups' smallest main path.
   */
  function AfterStone(ps: seq<PathInfo>, pb: seq<int>, end: int, index: int, color: Color, g: Gathered): (seq<PathInfo>, seq<int>, int)
    requires 0 <= index < |pb| && 0 <= end && 0 <= g.least < |ps|
    requires g.mains == {} ==> end < |ps|
  {
    if g.mains == {} then (ps[end := PathInfo(end, color, g.borders, g.corners)], pb[index := end], end + 1)
    else (Joined(ps, g.least, g.mains, end, g.borders, g.corners), pb[index := g.least], end)
  }

  /** What placing a stone of `color` on `index` does, seen from cell `c`; `g` is what the neighbours gathered. */
  ghost predicate PlacedStone(ps: seq<PathInfo>, pb: seq<int>, end: int, index: int, color: Color, g: Gathered, c: int)
    requires BoardWellFormed(ps, pb, end) && end <= |ps|
    requires 0 <= index < |pb| && 0 <= c < |pb|
    requires 1 <= g.least <= end && (g.mains == {} <==> g.least == end) && (g.mains == {} ==> end < |ps|)
  {
    var (ps2, pb2, end2) := AfterStone(ps, pb, end, index, color, g);
    && BoardWellFormed(ps2, pb2, end2)
    && |ps2| == |ps| && |pb2| == |pb|
    && pb2[index] == g.least
    && ColorAt(ps2, pb2, index) == color
    && MainAt(ps2, pb2, index) == g.least
    && ps2[g.least].borders == g.borders && ps2[g.least].corners == g.corners
    && (c != index ==> ColorAt(ps2, pb2, c) == ColorAt(ps, pb, c))
    && (c != index ==> MainAt(ps2, pb2, c) == if MainAt(ps, pb, c) in g.mains then g.least else MainAt(ps, pb, c))
    && (MainAt(ps, pb, c) !in g.mains ==> MainAt(ps, pb, c) != g.least)
  }

  /**
   * Placing a stone keeps the board well formed, gives the cell the
   * stone's colour and leaves the others' alone, moves exactly the groups
   * around the stone under the stone's main path, and gives that path the
   * masks gathered from the stone and its neighbours.
   */
  lemma StoneEffect(ps: seq<PathInfo>, pb: seq<int>, end: int, index: int, color: Color, nbs: seq<int>, b: (bv32, bv32), c: int)
    requires BoardWellFormed(ps, pb, end) && color != NoColor && end <= |ps|
    requires 0 <= index < |pb| && pb[index] == 0
    requires forall k :: 0 <= k < |nbs| ==> 0 <= nbs[k] < |pb|
    requires Gather(ps, pb, nbs, color, end, b).mains == {} ==> end < |ps|
    requires 0 <= c < |pb|
    ensures PlacedStone(ps, pb, end, index, color, Gather(ps, pb, nbs, color, end, b), c)
    ensures var g := Gather(ps, pb, nbs, color, end, b);
            g.mains == {} ==> g.borders == b.0 && g.corners == b.1
  {
    var g := Gather(ps, pb, nbs, color, end, b);
    GatherSpec(ps, pb, nbs, color, end, b);
    if g.mains == {} {
      LoneMasks(ps, pb, nbs, color, end, b);
      NewPathEffect(ps, pb, end, index, color, g, c);
    } else {
      JoinedMasks(ps, pb, nbs, color, end, b);
      JoinEffect(ps, pb, end, index, color, g, c);
    }
  }

  lemma NewPathEffect(ps: seq<PathInfo>, pb: seq<int>, end: int, index: int, color: Color, g: Gathered, c: int)
    requires BoardWellFormed(ps, pb, end) && color != NoColor && end < |ps|
    requires 0 <= index < |pb| && pb[index] == 0 && 0 <= c < |pb|
    requires g.mains == {} && g.least == end
    ensures var (ps2, pb2, end2) := AfterStone(ps, pb, end, index, color, g);
            && BoardWellFormed(ps2, pb2, end2)
            && |ps2| == |ps| && |pb2| == |pb|
            && pb2[index] == g.least && g.least != 0
            && ColorAt(ps2, pb2, index) == color
            && MainAt(ps2, pb2, index) == g.least
            && ps2[g.least].borders == g.borders && ps2[g.least].corners == g.corners
            && (c != index ==> ColorAt(ps2, pb2, c) == ColorAt(ps, pb, c))
            && (c != index ==> MainAt(ps2, pb2, c) == MainAt(ps, pb, c))
            && MainAt(ps, pb, c) != g.least
  {
    var ps2 := ps[end := PathInfo(end, color, g.borders, g.corners)];
    forall j | 1 <= j < end
      ensures ps2[j] == ps[j] && ps2[ps2[j].mainPathIndex] == ps[ps[j].mainPathIndex]
    {
    }
  }

  lemma JoinEffect(ps: seq<PathInfo>, pb: seq<int>, end: int, index: int, color: Color, g: Gathered, c: int)
    requires BoardWellFormed(ps, pb, end) && color != NoColor && end <= |ps|
    requires 0 <= index < |pb| && 0 <= c < |pb|
    requires forall r :: r in g.mains ==> 1 <= r < end && ps[r].mainPathIndex == r && ps[r].color == color
    requires g.least in g.mains && forall r :: r in g.mains ==> g.least <= r
    requires Within(ps[g.least].borders, g.borders) && Within(ps[g.least].corners, g.corners)
    ensures var js := Joined(ps, g.least, g.mains, end, g.borders, g.corners);
            && BoardWellFormed(js, pb[index := g.least], end)
            && js[g.least].mainPathIndex == g.least && js[g.least].color == color
            && js[g.least].borders == g.borders && js[g.least].corners == g.corners
            && js[pb[c]].mainPathIndex == (if ps[pb[c]].mainPathIndex in g.mains then g.least else ps[pb[c]].mainPathIndex)
            && js[pb[c]].color == ps[pb[c]].color
  {
    JoinedWellFormed(ps, g.least, g.mains, end, g.borders, g.corners, color, pb[c]);
    JoinedWellFormed(ps, g.least, g.mains, end, g.borders, g.corners, color, g.least);
  }

  /**
   * What a stone of `color` on `index` does to the groups: the cell takes
   * the colour, no other cell changes colour, every neighbour of that
   * colour ends in the stone's group, and a cell whose group changed is now
   * in the stone's group and was in the group of a neighbour of that colour.
   */
  ghost predicate StoneJoined(ps: seq<PathInfo>, pb: seq<int>, ps2: seq<PathInfo>, pb2: seq<int>, index: int, color: Color, nbs: seq<int>)
    requires CellsIn(pb, |ps|) && CellsIn(pb2, |ps2|) && |pb2| == |pb| && 0 <= index < |pb|
    requires forall k :: 0 <= k < |nbs| ==> 0 <= nbs[k] < |pb|
  {
    && ColorAt(ps2, pb2, index) == color
    && (forall c :: 0 <= c < |pb| && c != index ==> ColorAt(ps2, pb2, c) == ColorAt(ps, pb, c))
    && (forall k :: 0 <= k < |nbs| && ColorAt(ps2, pb2, nbs[k]) == color ==> MainAt(ps2, pb2, nbs[k]) == MainAt(ps2, pb2, index))
    && (forall c :: 0 <= c < |pb| && c != index && MainAt(ps2, pb2, c) != MainAt(ps, pb, c) ==> MainAt(ps2, pb2, c) == MainAt(ps2, pb2, index))
    && (forall c :: 0 <= c < |pb| && c != index && MainAt(ps2, pb2, c) != MainAt(ps, pb, c) ==>
          exists k :: 0 <= k < |nbs| && ColorAt(ps, pb, nbs[k]) == color && MainAt(ps, pb, nbs[k]) == MainAt(ps, pb, c))
  }

  /**
   * The stone's group touches every side and corner the stone touches and
   * every one that the groups of its neighbours of its colour touched.
   */
  ghost predicate MasksGathered(ps: seq<PathInfo>, pb: seq<int>, end: int, ps2: seq<PathInfo>, pb2: seq<int>, index: int, color: Color, nbs: seq<int>, b: (bv32, bv32))
    requires BoardWellFormed(ps, pb, end) && CellsIn(pb2, |ps2|) && |pb2| == |pb| && 0 <= index < |pb|
    requires forall k :: 0 <= k < |nbs| ==> 0 <= nbs[k] < |pb|
    requires 0 <= MainAt(ps2, pb2, index) < |ps2|
  {
    var main := ps2[MainAt(ps2, pb2, index)];
    && Within(b.0, main.borders) && Within(b.1, main.corners)
    && forall k :: 0 <= k < |nbs| && ColorAt(ps, pb, nbs[k]) == color ==>
         Within(ps[MainAt(ps, pb, nbs[k])].borders, main.borders) && Within(ps[MainAt(ps, pb, nbs[k])].corners, main.corners)
  }

  /** A stone joins exactly the groups around it, whose sides and corners its own group gathers. */
  lemma StoneJoins(ps: seq<PathInfo>, pb: seq<int>, end: int, index: int, color: Color, nbs: seq<int>, b: (bv32, bv32))
    requires BoardWellFormed(ps, pb, end) && color != NoColor && end <= |ps|
    requires 0 <= index < |pb| && pb[index] == 0
    requires forall k :: 0 <= k < |nbs| ==> 0 <= nbs[k] < |pb|
    requires Gather(ps, pb, nbs, color, end, b).mains == {} ==> end < |ps|
    ensures var g := Gather(ps, pb, nbs, color, end, b);
            var (ps2, pb2, end2) := AfterStone(ps, pb, end, index, color, g);
            && BoardWellFormed(ps2, pb2, end2) && |pb2| == |pb|
            && StoneJoined(ps, pb, ps2, pb2, index, color, nbs)
            && MainAt(ps2, pb2, index) == g.least
            && MasksGathered(ps, pb, end, ps2, pb2, index, color, nbs, b)
  {
    var g := Gather(ps, pb, nbs, color, end, b);
    var (ps2, pb2, end2) := AfterStone(ps, pb, end, index, color, g);
    StoneEffect(ps, pb, end, index, color, nbs, b, index);
    GatherSpec(ps, pb, nbs, color, end, b);
    GatherMasks(ps, pb, nbs, color, end, b);
    forall c | 0 <= c < |pb| && c != index
      ensures ColorAt(ps2, pb2, c) == ColorAt(ps, pb, c)
      ensures MainAt(ps2, pb2, c) != MainAt(ps, pb, c) ==> MainAt(ps2, pb2, c) == MainAt(ps2, pb2, index)
      ensures MainAt(ps2, pb2, c) != MainAt(ps, pb, c) ==>
        exists k :: 0 <= k < |nbs| && ColorAt(ps, pb, nbs[k]) == color && MainAt(ps, pb, nbs[k]) == MainAt(ps, pb, c)
    {
      GatherMains(ps, pb, nbs, color, end, b, MainAt(ps, pb, c));
      StoneEffect(ps, pb, end, index, color, nbs, b, c);
    }
    forall k | 0 <= k < |nbs| && ColorAt(ps2, pb2, nbs[k]) == color
      ensures MainAt(ps2, pb2, nbs[k]) == MainAt(ps2, pb2, index)
    {
      if nbs[k] != index {
        StoneEffect(ps, pb, end, index, color, nbs, b, nbs[k]);
        GatherMains(ps, pb, nbs, color, end, b, MainAt(ps, pb, nbs[k]));
      }
    }
    forall k | 0 <= k < |nbs| && ColorAt(ps, pb, nbs[k]) == color
      ensures Within(ps[MainAt(ps, pb, nbs[k])].borders, g.borders) && Within(ps[MainAt(ps, pb, nbs[k])].corners, g.corners)
    {
      GatherHas(ps, pb, nbs, color, end, b, k);
    }
  }

  /** The cells whose stone belongs to the group of main path `p`, in increasing order. */
  function PathCells(ps: seq<PathInfo>, pb: seq<int>, p: int): (r: seq<int>)
    requires CellsIn(pb, |ps|)
    ensures forall k :: 0 <= k < |r| ==> 0 <= r[k] < |pb|
  {
    if |pb| == 0 then []
    else
      var front := PathCells(ps, pb[..|pb| - 1], p);
      if MainAt(ps, pb, |pb| - 1) == p then front + [|pb| - 1] else front
  }

  /** The group's cells are listed once each, in increasing order, and no other cell is. */
  lemma {:induction false} PathCellsAre(ps: seq<PathInfo>, pb: seq<int>, p: int)
    requires CellsIn(pb, |ps|)
    ensures var r := PathCells(ps, pb, p);
            && (forall k :: 0 <= k < |r| ==> MainAt(ps, pb, r[k]) == p)
            && (forall c :: 0 <= c < |pb| && MainAt(ps, pb, c) == p ==> c in r)
            && (forall a, b :: 0 <= a < b < |r| ==> r[a] < r[b])
  {
    if |pb| > 0 {
      var front := pb[..|pb| - 1];
      PathCellsAre(ps, front, p);
      assert forall c :: 0 <= c < |front| ==> MainAt(ps, front, c) == MainAt(ps, pb, c);
    }
  }

  /** A group that no cell but `x` belongs to has at most that one cell. */
  lemma {:induction false} PathCellsAlone(ps: seq<PathInfo>, pb: seq<int>, p: int, x: int)
    requires CellsIn(pb, |ps|)
    requires forall c :: 0 <= c < |pb| && c != x ==> MainAt(ps, pb, c) != p
    ensures |PathCells(ps, pb, p)| <= if 0 <= x < |pb| then 1 else 0
  {
    if |pb| > 0 {
      var front := pb[..|pb| - 1];
      assert forall c :: 0 <= c < |front| ==> MainAt(ps, front, c) == MainAt(ps, pb, c);
      PathCellsAlone(ps, front, p, x);
    }
  }

  /** How many of the cells `nbs` hold a stone of `color`. */
  function CountColored(ps: seq<PathInfo>, pb: seq<int>, nbs: seq<int>, color: Color): nat
    requires CellsIn(pb, |ps|)
    requires forall k :: 0 <= k < |nbs| ==> 0 <= nbs[k] < |pb|
  {
    if |nbs| == 0 then 0
    else CountColored(ps, pb, nbs[..|nbs| - 1], color) + (if ColorAt(ps, pb, nbs[|nbs| - 1]) == color then 1 else 0)
  }

  /** The count is at most the number of cells, and reaches it exactly when every cell holds a stone of `color`. */
  lemma {:induction false} CountColoredAll(ps: seq<PathInfo>, pb: seq<int>, nbs: seq<int>, color: Color)
    requires CellsIn(pb, |ps|)
    requires forall k :: 0 <= k < |nbs| ==> 0 <= nbs[k] < |pb|
    ensures CountColored(ps, pb, nbs, color) <= |nbs|
    ensures CountColored(ps, pb, nbs, color) == |nbs| <==> forall k :: 0 <= k < |nbs| ==> ColorAt(ps, pb, nbs[k]) == color
  {
    if |nbs| > 0 {
      var front := nbs[..|nbs| - 1];
      CountColoredAll(ps, pb, front, color);
      assert forall k :: 0 <= k < |front| ==> front[k] == nbs[k];
    }
  }

  /** A cell all six of whose neighbours hold stones of `color`. */
  ghost predicate Surrounded(size: int, ps: seq<PathInfo>, pb: seq<int>, c: int, color: Color)
    requires size >= 1 && |pb| == FullSize(size) * FullSize(size) && CellsIn(pb, |ps|)
  {
    CountColored(ps, pb, Neighbours(size, c), color) == 6
  }

  /** A surrounded cell has six neighbours in the hexagon, all of that colour. */
  lemma SurroundedIsInterior(size: int, ps: seq<PathInfo>, pb: seq<int>, c: int, color: Color)
    requires size >= 1 && |pb| == FullSize(size) * FullSize(size) && CellsIn(pb, |ps|)
    ensures Surrounded(size, ps, pb, c, color) <==>
      |Neighbours(size, c)| == 6 && forall k :: 0 <= k < 6 ==> ColorAt(ps, pb, Neighbours(size, c)[k]) == color
  {
    CountColoredAll(ps, pb, Neighbours(size, c), color);
  }

  /**
   * The group of main path `p`, just joined by the stone on `cell`, forms a
   * cycle: it has at least six cells, the stone touches at least two stones
   * of its colour, and either one of its cells is surrounded by its colour
   * or `hole` finds a region it encloses.
   */
  ghost predicate FormsCycle(size: int, ps: seq<PathInfo>, pb: seq<int>, p: int, cell: int, hole: seq<int> -> bool)
    requires size >= 1 && |pb| == FullSize(size) * FullSize(size) && CellsIn(pb, |ps|) && 0 <= p < |ps|
  {
    var color := ps[p].color;
    var cells := PathCells(ps, pb, p);
    && |cells| >= 6
    && CountColored(ps, pb, Neighbours(size, cell), color) >= 2
    && ((exists k :: 0 <= k < |cells| && Surrounded(size, ps, pb, cells[k], color)) || hole(cells))
  }

  /** A group touching three sides (a fork) or two corners (a bridge). */
  predicate ForkOrBridge(p: PathInfo)
  {
    NbOnes(p.borders) >= 3 || NbOnes(p.corners) >= 2
  }

  /** The winning condition of a group: a fork, a bridge, or a cycle. */
  predicate WinningPath(p: PathInfo, cycle: bool)
  {
    ForkOrBridge(p) || cycle
  }

  /** A cell has at most one side bit and at most one corner bit. */
  lemma StoneMasks(size: int, index: int)
    requires size >= 2
    ensures NbOnes(ComputeBorders(size, index)) <= 1 && NbOnes(ComputeCorners(size, index)) <= 1
  {
    var c := IndexToCell(size, index);
    CornerMask(size, c);
    BorderMask(size, c);
    NbOnesBounds(CellBorders(size, c), 0);
    NbOnesBounds(CellCorners(size, c), 0);
  }

  /**
   * A stone that joins no group does not win: its path touches at most one
   * side and one corner, and its group is that one cell, too small for a
   * cycle.
   */
  lemma LoneStoneCannotWin(size: int, ps: seq<PathInfo>, pb: seq<int>, end: int, index: int, color: Color, g: Gathered, hole: seq<int> -> bool)
    requires size >= 2 && |pb| == FullSize(size) * FullSize(size) && 0 <= index < |pb|
    requires BoardWellFormed(ps, pb, end) && end < |ps| && color != NoColor
    requires g == Gather(ps, pb, Neighbours(size, index), color, end, (ComputeBorders(size, index), ComputeCorners(size, index)))
    requires g.mains == {}
    ensures var (ps2, pb2, _) := AfterStone(ps, pb, end, index, color, g);
            CellsIn(pb2, |ps2|) && !WinningPath(ps2[g.least], FormsCycle(size, ps2, pb2, g.least, index, hole))
  {
    var b := (ComputeBorders(size, index), ComputeCorners(size, index));
    GatherSpec(ps, pb, Neighbours(size, index), color, end, b);
    GatherMasks(ps, pb, Neighbours(size, index), color, end, b);
    StoneMasks(size, index);
    var p := PathInfo(end, color, g.borders, g.corners);
    LonePathCells(ps, pb, end, index, p);
    SmallPathCannotWin(size, ps[end := p], pb[index := end], end, index, hole);
  }

  /** A path of at most one cell, touching at most one side and one corner, is no fork, bridge or cycle. */
  lemma SmallPathCannotWin(size: int, ps: seq<PathInfo>, pb: seq<int>, p: int, index: int, hole: seq<int> -> bool)
    requires size >= 1 && |pb| == FullSize(size) * FullSize(size) && CellsIn(pb, |ps|) && 0 <= p < |ps|
    requires NbOnes(ps[p].borders) <= 1 && NbOnes(ps[p].corners) <= 1 && |PathCells(ps, pb, p)| <= 1
    ensures !WinningPath(ps[p], FormsCycle(size, ps, pb, p, index, hole))
  {
  }

  /** A new path whose only cell is `index`. */
  lemma LonePathCells(ps: seq<PathInfo>, pb: seq<int>, end: int, index: int, p: PathInfo)
    requires BoardWellFormed(ps, pb, end) && end < |ps| && 0 <= index < |pb| && p.mainPathIndex == end
    ensures CellsIn(pb[index := end], |ps|) && |PathCells(ps[end := p], pb[index := end], end)| <= 1
  {
    var ps2, pb2 := ps[end := p], pb[index := end];
    forall c | 0 <= c < |pb2| && c != index
      ensures MainAt(ps2, pb2, c) != end
    {
      assert ps2[pb[c]] == ps[pb[c]];
    }
    PathCellsAlone(ps2, pb2, end, index);
  }

  /** The neighbour list of every cell of the square, by index. */
  ghost predicate NeighbourTable(size: int, table: seq<seq<int>>)
    requires size >= 1
  {
    |table| == FullSize(size) * FullSize(size) && forall k :: 0 <= k < |table| ==> table[k] == Neighbours(size, k)
  }

  /**
   * The play state kept alongside the path table: the empty hexagon cells
   * counted, at most one new path per stone, the last move on a stone (none
   * before the first move), no fork or bridge but the winner's, the cycle
   * that won (0 when none did) a main path of the winner, and a fork or a
   * bridge behind a winner that no cycle made.
   */
  ghost predicate Tracked(size: int, ps: seq<PathInfo>, pb: seq<int>, end: int, nbEmpty: int, last: Option<int>, winner: Color, cycle: int)
    requires size >= 1
  {
    TrackedBoard(size, ps, pb, end, nbEmpty, last) && TrackedWinner(ps, end, winner, cycle)
  }

  /** The board half of the play state: the table well formed, the empty cells counted, the last move on a stone. */
  ghost predicate TrackedBoard(size: int, ps: seq<PathInfo>, pb: seq<int>, end: int, nbEmpty: int, last: Option<int>)
    requires size >= 1
  {
    && |ps| == |pb|
    && BoardWellFormed(ps, pb, end)
    && nbEmpty == |EmptyCells(size, pb)|
    && end <= ValidCount(size, |pb|) - nbEmpty + 1
    && (last.Some? ==> IsValidIndex(size, last.value) && 0 <= last.value < |pb| && pb[last.value] != 0)
    && (last.None? ==> nbEmpty == ValidCount(size, |pb|))
  }

  /** The winner half of the play state: forks and bridges only of the winner, and the winning cycle. */
  ghost predicate TrackedWinner(ps: seq<PathInfo>, end: int, winner: Color, cycle: int)
    requires end <= |ps|
  {
    && (forall k :: 1 <= k < end && ForkOrBridge(ps[k]) ==> ps[k].color == winner)
    && (cycle != 0 ==> 1 <= cycle < end && ps[cycle].mainPathIndex == cycle && ps[cycle].color == winner)
    && (winner != NoColor && cycle == 0 ==> exists k :: 1 <= k < end && ForkOrBridge(ps[k]))
    && (winner == NoColor ==> cycle == 0)
  }

  /** The empty board: every cell on the empty path, nothing played, no winner. */
  lemma InitialTracked(size: int, ps: seq<PathInfo>, pb: seq<int>, end: int, nbEmpty: int, last: Option<int>, winner: Color, cycle: int)
    requires size >= 1 && |ps| == |pb| > 0 && ps[0] == EmptyPath && pb == seq(|pb|, _ => 0)
    requires end == 1 && nbEmpty == ValidCount(size, |pb|) && last == None && winner == NoColor && cycle == 0
    ensures Tracked(size, ps, pb, end, nbEmpty, last, winner, cycle)
  {
    AllEmpty(size, |pb|);
  }

  /** While a hexagon cell is empty there is room in the path table for one more path. */
  lemma RoomForPath(size: int, ps: seq<PathInfo>, pb: seq<int>, end: int, nbEmpty: int, last: Option<int>, winner: Color, cycle: int)
    requires size >= 2 && |pb| == FullSize(size) * FullSize(size)
    requires Tracked(size, ps, pb, end, nbEmpty, last, winner, cycle) && nbEmpty != 0
    ensures end < |ps|
  {
    ValidCountBelow(size, |pb|);
  }

  /**
   * The board `ps2, pb2, end2` and the verdict `winner2, cycle2` after a
   * stone of `color` on `index`: the stone's groups are gathered as `play`
   * does, the table is updated with them, and the colour wins exactly when
   * the stone's group is a fork, a bridge or a cycle.
   */
  ghost predicate StoneSet(size: int, ps: seq<PathInfo>, pb: seq<int>, end: int, index: int, color: Color, hole: seq<int> -> bool,
                           ps2: seq<PathInfo>, pb2: seq<int>, end2: int, winner2: Color, cycle2: int)
    requires size >= 1 && |pb| == FullSize(size) * FullSize(size) && 0 <= index < |pb|
    requires BoardWellFormed(ps, pb, end) && color != NoColor
  {
    var g := Gather(ps, pb, Neighbours(size, index), color, end, (ComputeBorders(size, index), ComputeCorners(size, index)));
    && end < |ps|
    && (ps2, pb2, end2) == AfterStone(ps, pb, end, index, color, g)
    && |ps2| == |ps| && |pb2| == |pb| && CellsIn(pb2, |ps2|)
    && var cyc := FormsCycle(size, ps2, pb2, g.least, index, hole);
    && winner2 == (if WinningPath(ps2[g.least], cyc) then color else NoColor)
    && cycle2 == (if !ForkOrBridge(ps2[g.least]) && cyc then g.least else 0)
  }

  /** The winner check of `play`, made only when the stone joins a group, is the full verdict, since a lone stone cannot win. */
  lemma StoneSetFrom(size: int, ps: seq<PathInfo>, pb: seq<int>, end: int, index: int, color: Color, hole: seq<int> -> bool,
                     g: Gathered, ps2: seq<PathInfo>, pb2: seq<int>, end2: int, winner2: Color, cycle2: int)
    requires size >= 2 && |pb| == FullSize(size) * FullSize(size) && 0 <= index < |pb|
    requires BoardWellFormed(ps, pb, end) && end < |ps| && color != NoColor
    requires g == Gather(ps, pb, Neighbours(size, index), color, end, (ComputeBorders(size, index), ComputeCorners(size, index)))
    requires (ps2, pb2, end2) == AfterStone(ps, pb, end, index, color, g)
    requires |ps2| == |ps| && |pb2| == |pb| && CellsIn(pb2, |ps2|)
    requires var cyc := FormsCycle(size, ps2, pb2, g.least, index, hole);
             && winner2 == (if g.mains != {} && WinningPath(ps2[g.least], cyc) then color else NoColor)
             && cycle2 == (if g.mains != {} && !ForkOrBridge(ps2[g.least]) && cyc then g.least else 0)
    ensures StoneSet(size, ps, pb, end, index, color, hole, ps2, pb2, end2, winner2, cycle2)
  {
    if g.mains == {} {
      LoneStoneCannotWin(size, ps, pb, end, index, color, g, hole);
    }
  }

  /**
   * A stone on an empty hexagon cell before any winner keeps the play
   * state; its colour wins exactly when the group it joins is a fork, a
   * bridge or a cycle, and the group is recorded as the winning cycle when
   * only the cycle makes it win.
   */
  lemma StoneTracked(size: int, ps: seq<PathInfo>, pb: seq<int>, end: int, nbEmpty: int, last: Option<int>,
                     index: int, color: Color, hole: seq<int> -> bool,
                     ps2: seq<PathInfo>, pb2: seq<int>, end2: int, nbEmpty2: int, last2: Option<int>,
                     winner: Color, cycle: int, winner2: Color, cycle2: int)
    requires size >= 2 && |pb| == FullSize(size) * FullSize(size)
    requires Tracked(size, ps, pb, end, nbEmpty, last, winner, cycle) && winner == NoColor && color != NoColor
    requires IsValidIndex(size, index) && pb[index] == 0 && end < |ps|
    requires StoneSet(size, ps, pb, end, index, color, hole, ps2, pb2, end2, winner2, cycle2)
    requires nbEmpty2 == nbEmpty - 1 && last2 == Some(index)
    ensures Tracked(size, ps2, pb2, end2, nbEmpty2, last2, winner2, cycle2)
  {
    var b := (ComputeBorders(size, index), ComputeCorners(size, index));
    var g := Gather(ps, pb, Neighbours(size, index), color, end, b);
    StoneEffect(ps, pb, end, index, color, Neighbours(size, index), b, index);
    if g.mains == {} {
      LoneStoneCannotWin(size, ps, pb, end, index, color, g, hole);
    }
    BoardTracked(size, ps, pb, end, nbEmpty, last, index, color, g, ps2, pb2, end2, nbEmpty2, last2);
    WinnerTracked(size, ps, pb, end, index, color, g, hole, ps2, pb2, end2, winner, cycle, winner2, cycle2);
  }

  /** The board half of the play state after a stone. */
  lemma BoardTracked(size: int, ps: seq<PathInfo>, pb: seq<int>, end: int, nbEmpty: int, last: Option<int>,
                     index: int, color: Color, g: Gathered,
                     ps2: seq<PathInfo>, pb2: seq<int>, end2: int, nbEmpty2: int, last2: Option<int>)
    requires size >= 2 && TrackedBoard(size, ps, pb, end, nbEmpty, last)
    requires IsValidIndex(size, index) && 0 <= index < |pb| && pb[index] == 0
    requires 1 <= g.least <= end && (g.mains == {} <==> g.least == end) && (g.mains == {} ==> end < |ps|)
    requires PlacedStone(ps, pb, end, index, color, g, index)
    requires (ps2, pb2, end2) == AfterStone(ps, pb, end, index, color, g)
    requires nbEmpty2 == nbEmpty - 1 && last2 == Some(index)
    ensures TrackedBoard(size, ps2, pb2, end2, nbEmpty2, last2)
  {
    FillOne(size, pb, index, g.least);
  }

  /** The winner half of the play state after a stone before any winner. */
  lemma WinnerTracked(size: int, ps: seq<PathInfo>, pb: seq<int>, end: int, index: int, color: Color, g: Gathered, hole: seq<int> -> bool,
                      ps2: seq<PathInfo>, pb2: seq<int>, end2: int, winner: Color, cycle: int, winner2: Color, cycle2: int)
    requires size >= 2 && 0 <= index < |pb| && PathsWellFormed(ps, end) && end <= |ps|
    requires TrackedWinner(ps, end, winner, cycle) && winner == NoColor
    requires 1 <= g.least <= end && (g.mains == {} <==> g.least == end) && (g.mains == {} ==> end < |ps|)
    requires g.mains == {} ==> g.borders == ComputeBorders(size, index) && g.corners == ComputeCorners(size, index)
    requires (ps2, pb2, end2) == AfterStone(ps, pb, end, index, color, g)
    requires |ps2| == |ps| && end2 <= |ps2| && ps2[g.least].borders == g.borders && ps2[g.least].corners == g.corners
    requires ps2[g.least].mainPathIndex == g.least && ps2[g.least].color == color
    requires |pb2| == FullSize(size) * FullSize(size) && CellsIn(pb2, |ps2|)
    requires var cyc := FormsCycle(size, ps2, pb2, g.least, index, hole);
             && winner2 == (if WinningPath(ps2[g.least], cyc) then color else NoColor)
             && cycle2 == (if !ForkOrBridge(ps2[g.least]) && cyc then g.least else 0)
    requires g.mains == {} ==> winner2 == NoColor && cycle2 == 0
    ensures TrackedWinner(ps2, end2, winner2, cycle2)
  {
    if g.mains == {} {
      LoneWinner(size, ps, end, index, color);
    } else {
      JoinedWinner(ps, end, color, g, ps2, winner2, cycle2, FormsCycle(size, ps2, pb2, g.least, index, hole));
    }
  }

  /** A stone that starts a new path makes no fork and no bridge, since it touches at most one side and one corner. */
  lemma LoneWinner(size: int, ps: seq<PathInfo>, end: int, index: int, color: Color)
    requires size >= 2 && 0 <= end < |ps| && TrackedWinner(ps, end, NoColor, 0)
    ensures TrackedWinner(ps[end := PathInfo(end, color, ComputeBorders(size, index), ComputeCorners(size, index))], end + 1, NoColor, 0)
  {
    StoneMasks(size, index);
  }

  /** A stone that joins groups makes its colour the winner exactly when the joined group wins. */
  lemma JoinedWinner(ps: seq<PathInfo>, end: int, color: Color, g: Gathered, ps2: seq<PathInfo>, winner2: Color, cycle2: int, cyc: bool)
    requires 1 <= g.least < end <= |ps| && PathsWellFormed(ps, end) && TrackedWinner(ps, end, NoColor, 0)
    requires ps2 == Joined(ps, g.least, g.mains, end, g.borders, g.corners)
    requires ps2[g.least].mainPathIndex == g.least && ps2[g.least].color == color
    requires winner2 == (if WinningPath(ps2[g.least], cyc) then color else NoColor)
    requires cycle2 == (if !ForkOrBridge(ps2[g.least]) && cyc then g.least else 0)
    ensures TrackedWinner(ps2, end, winner2, cycle2)
  {
    forall k | 1 <= k < end && ForkOrBridge(ps2[k])
      ensures ps2[k].color == winner2
    {
      if ps2[k] != ps[k] {
        assert ps2[k] == ps2[g.least];
      }
    }
    if winner2 != NoColor && cycle2 == 0 {
      assert ForkOrBridge(ps2[g.least]);
    }
  }

  /**
   * A stone of `color` on `index` took the board from `ps, pb` to `ps2, pb2`:
   * it joined exactly the groups around it, its group gathered their sides
   * and corners, its colour is the winner exactly when its group is a fork,
   * a bridge or a cycle, and the winning cycle is recorded when only the
   * cycle made it win.
   */
  ghost predicate StonePlayed(size: int, ps: seq<PathInfo>, pb: seq<int>, end: int, ps2: seq<PathInfo>, pb2: seq<int>, end2: int,
                              index: int, color: Color, winner2: Color, cycle2: int, hole: seq<int> -> bool)
    requires size >= 1 && |pb| == FullSize(size) * FullSize(size) && 0 <= index < |pb|
    requires BoardWellFormed(ps, pb, end) && BoardWellFormed(ps2, pb2, end2) && |pb2| == |pb|
  {
    && StoneJoined(ps, pb, ps2, pb2, index, color, Neighbours(size, index))
    && MasksGathered(ps, pb, end, ps2, pb2, index, color, Neighbours(size, index), (ComputeBorders(size, index), ComputeCorners(size, index)))
    && var main := MainAt(ps2, pb2, index);
    && (winner2 != NoColor <==> WinningPath(ps2[main], FormsCycle(size, ps2, pb2, main, index, hole)))
    && (winner2 != NoColor ==> winner2 == color)
    && (cycle2 != 0 <==> winner2 != NoColor && !ForkOrBridge(ps2[main]))
  }

  /**
   * A stone move: the exact new table and verdict (StoneSet), read in the
   * board's own terms (StonePlayed).
   */
  ghost predicate StoneMoved(size: int, ps: seq<PathInfo>, pb: seq<int>, end: int, index: int, color: Color, hole: seq<int> -> bool,
                             ps2: seq<PathInfo>, pb2: seq<int>, end2: int, winner2: Color, cycle2: int)
    requires size >= 1 && |pb| == FullSize(size) * FullSize(size) && 0 <= index < |pb|
    requires BoardWellFormed(ps, pb, end) && color != NoColor
    requires BoardWellFormed(ps2, pb2, end2) && |pb2| == |pb|
  {
    && StoneSet(size, ps, pb, end, index, color, hole, ps2, pb2, end2, winner2, cycle2)
    && StonePlayed(size, ps, pb, end, ps2, pb2, end2, index, color, winner2, cycle2, hole)
  }

  /**
   * The outcome of a stone, in the board's own terms: the groups it joins,
   * the sides and corners its group gathers, and a winner exactly when its
   * group is a fork, a bridge or a cycle.
   */
  lemma StoneOutcome(size: int, ps: seq<PathInfo>, pb: seq<int>, end: int, index: int, color: Color, hole: seq<int> -> bool,
                     ps2: seq<PathInfo>, pb2: seq<int>, end2: int, winner2: Color, cycle2: int)
    requires size >= 2 && |pb| == FullSize(size) * FullSize(size) && 0 <= index < |pb| && pb[index] == 0
    requires BoardWellFormed(ps, pb, end) && end < |ps| && color != NoColor
    requires StoneSet(size, ps, pb, end, index, color, hole, ps2, pb2, end2, winner2, cycle2)
    ensures |pb2| == |pb| && BoardWellFormed(ps2, pb2, end2)
    ensures StonePlayed(size, ps, pb, end, ps2, pb2, end2, index, color, winner2, cycle2, hole)
  {
    StoneJoins(ps, pb, end, index, color, Neighbours(size, index), (ComputeBorders(size, index), ComputeCorners(size, index)));
  }

  /** One more neighbour in the loop of `play`: the group it adds, if it has the colour, and otherwise nothing. */
  lemma GroupsStep(ps: seq<PathInfo>, pb: seq<int>, nbs: seq<int>, color: Color, end: int, i: int)
    requires BoardWellFormed(ps, pb, end) && color != NoColor
    requires forall k :: 0 <= k < |nbs| ==> 0 <= nbs[k] < |pb|
    requires 0 <= i < |nbs|
    ensures 0 <= pb[nbs[i]] < |ps| && 0 <= ps[pb[nbs[i]]].mainPathIndex < |ps|
    ensures var p, before, after := ps[pb[nbs[i]]], Groups(ps, pb, nbs[..i], color, end), Groups(ps, pb, nbs[..i + 1], color, end);
            p.color == color ==>
              && after == (before.0 + {p.mainPathIndex}, Min(before.1, p.mainPathIndex))
              && GroupPaths(ps, pb, nbs, color, end)[i] == ps[p.mainPathIndex]
    ensures var p, before, after := ps[pb[nbs[i]]], Groups(ps, pb, nbs[..i], color, end), Groups(ps, pb, nbs[..i + 1], color, end);
            p.color != color ==> after == before && GroupPaths(ps, pb, nbs, color, end)[i] == EmptyPath
  {
    assert nbs[..i + 1][..i] == nbs[..i];
  }

  class Board {
    const size: int
    const pie: bool
    const neighboursBoard: array<seq<int>>
    const paths: array<PathInfo>
    const pathBoard: array<int>
    const nbFullIndices: int
    const nbIndices: int
    var currentColor: Color
    var winnerColor: Color
    var hasPie: bool
    var lastIndex: Option<int>
    var nbEmptyIndices: int
    var pathsEnd: int
    var winningCycle: int

    /** The tables have the size of the square, the neighbour table is filled, and every cell names a path of the table. */
    ghost predicate Consistent()
      reads neighboursBoard, paths, pathBoard
    {
      && size >= 2
      && nbFullIndices == FullSize(size) * FullSize(size)
      && neighboursBoard.Length == nbFullIndices && paths.Length == nbFullIndices && pathBoard.Length == nbFullIndices
      && NeighbourTable(size, neighboursBoard[..])
      && CellsIn(pathBoard[..], paths.Length)
    }

    ghost predicate Valid()
      reads this`currentColor, this`pathsEnd, this`nbEmptyIndices, this`lastIndex, this`winnerColor, this`winningCycle
      reads neighboursBoard, paths, pathBoard
    {
      && Consistent()
      && nbIndices == nbFullIndices - (size - 1) * size
      && currentColor != NoColor
      && Tracked(size, paths[..], pathBoard[..], pathsEnd, nbEmptyIndices, lastIndex, winnerColor, winningCycle)
    }

    /** The colour of the stone on a cell, NoColor when it is empty. */
    function CellColor(c: int): Color
      reads this, neighboursBoard, paths, pathBoard
      requires Valid() && 0 <= c < nbFullIndices
    {
      ColorAt(paths[..], pathBoard[..], c)
    }

    /** The main path of the group the stone on a cell belongs to. */
    function Main(c: int): int
      reads this, neighboursBoard, paths, pathBoard
      requires Valid() && 0 <= c < nbFullIndices
    {
      MainAt(paths[..], pathBoard[..], c)
    }

    constructor(size: int, pie: bool)
      requires size >= 2
      ensures Valid() && this.size == size && this.pie == pie
      ensures nbEmptyIndices == nbIndices && currentColor == Black && winnerColor == NoColor
      ensures lastIndex == None && !hasPie && pathsEnd == 1 && winningCycle == 0
    {
      this.size := size;
      this.pie := pie;
      var n := FullSize(size) * FullSize(size);
      nbFullIndices := n;
      nbIndices := n - (size - 1) * size;
      neighboursBoard := new seq<int>[n];
      paths := new PathInfo[n](_ => EmptyPath);
      pathBoard := new int[n];
      new;
      Reset();
    }

    /**
     * An empty board: the hexagon's cells counted, every cell on the empty
     * path 0, Black to move, no winner, no last move, and the neighbour
     * table filled.
     */
    method Reset()
      requires size >= 2 && nbFullIndices == FullSize(size) * FullSize(size) && nbIndices == nbFullIndices - (size - 1) * size
      requires neighboursBoard.Length == FullSize(size) * FullSize(size)
      requires paths.Length == FullSize(size) * FullSize(size) && pathBoard.Length == FullSize(size) * FullSize(size)
      modifies this`nbEmptyIndices, this`winningCycle, this`currentColor, this`winnerColor, this`hasPie, this`lastIndex, this`pathsEnd
      modifies neighboursBoard, paths, pathBoard
      ensures Valid()
      ensures nbFullIndices == FullSize(size) * FullSize(size) && nbIndices == ValidCount(size, nbFullIndices)
      ensures nbEmptyIndices == nbIndices && currentColor == Black && winnerColor == NoColor
      ensures lastIndex == None && !hasPie && pathsEnd == 1 && winningCycle == 0
      ensures forall c :: 0 <= c < nbFullIndices ==> pathBoard[c] == 0
    {
      nbEmptyIndices := nbIndices;
      winningCycle := 0;
      currentColor := Black;
      winnerColor := NoColor;
      hasPie := false;
      lastIndex := None;
      pathsEnd := 1;
      ResetTables();
      HexagonCells(size);
      InitialTracked(size, paths[..], pathBoard[..], pathsEnd, nbEmptyIndices, lastIndex, winnerColor, winningCycle);
    }

    /** The tables of an empty board: the neighbour table filled, path 0 the empty path, every cell on it. */
    method ResetTables()
      requires size >= 2 && neighboursBoard.Length == FullSize(size) * FullSize(size) && paths.Length > 0
      modifies neighboursBoard, paths, pathBoard
      ensures NeighbourTable(size, neighboursBoard[..])
      ensures paths[0] == EmptyPath && pathBoard[..] == seq(pathBoard.Length, _ => 0)
    {
      FillNeighbours();
      paths[0] := EmptyPath;
      ClearPathBoard();
    }

    /** Every cell back on the empty path 0. */
    method ClearPathBoard()
      modifies pathBoard
      ensures pathBoard[..] == seq(pathBoard.Length, _ => 0)
    {
      var c := 0;
      while c < pathBoard.Length
        invariant 0 <= c <= pathBoard.Length
        invariant forall k :: 0 <= k < c ==> pathBoard[k] == 0
      {
        pathBoard[c] := 0;
        c := c + 1;
      }
    }

    /** The neighbour table, row by row of the square. */
    method FillNeighbours()
      requires size >= 2 && neighboursBoard.Length == FullSize(size) * FullSize(size)
      modifies neighboursBoard
      ensures NeighbourTable(size, neighboursBoard[..])
    {
      var n := FullSize(size);
      for i := 0 to n
        invariant forall k :: 0 <= k < i * n ==> neighboursBoard[k] == Neighbours(size, k)
      {
        MulBelow(i, n);
        FillRow(i, i * n);
        assert (i + 1) * n == i * n + n;
      }
      assert forall k :: 0 <= k < n * n ==> neighboursBoard[..][k] == neighboursBoard[k];
    }

    /** One row of the neighbour table, the rows above it being filled. */
    method FillRow(i: int, ghost base: int)
      requires size >= 2 && neighboursBoard.Length == FullSize(size) * FullSize(size)
      requires 0 <= i < FullSize(size) && base == i * FullSize(size) && base + FullSize(size) <= neighboursBoard.Length
      requires forall k :: 0 <= k < base ==> neighboursBoard[k] == Neighbours(size, k)
      modifies neighboursBoard
      ensures forall k :: 0 <= k < base + FullSize(size) ==> neighboursBoard[k] == Neighbours(size, k)
    {
      for j := 0 to FullSize(size)
        invariant forall k :: 0 <= k < base + j ==> neighboursBoard[k] == Neighbours(size, k)
      {
        var index := CellToIndex(size, (i, j));
        CellIndexInverse(size, index, (i, j));
        neighboursBoard[index] := ValidIndices(size, Around(i, j));
      }
    }

    /**
     * A move. Replaying the last stone while the pie rule allows it takes
     * the pie and changes nothing else; otherwise a stone of the current
     * colour goes on the empty cell, joins the groups of its neighbours of
     * that colour, its colour wins when its group is a fork, a bridge or a
     * cycle, and the turn passes. `hole` stands for the flood fill that
     * tells whether a group's cells enclose a region.
     */
    method Play(index: int, hole: seq<int> -> bool)
      requires Valid() && IsValidIndex(size, index) && !IsGameFinished()
      requires lastIndex == Some(index) ==> CanPie()
      requires lastIndex != Some(index) ==> pathBoard[index] == 0
      modifies this`hasPie, this`pathsEnd, this`winnerColor, this`winningCycle, this`nbEmptyIndices, this`lastIndex, this`currentColor
      modifies paths, pathBoard
      ensures Valid()
      ensures old(lastIndex) == Some(index) ==>
        hasPie && pathsEnd == old(pathsEnd) && nbEmptyIndices == old(nbEmptyIndices) && lastIndex == old(lastIndex) &&
        currentColor == old(currentColor) && winnerColor == old(winnerColor) && winningCycle == old(winningCycle) &&
        paths[..] == old(paths[..]) && pathBoard[..] == old(pathBoard[..])
      ensures old(lastIndex) != Some(index) ==>
        && hasPie == old(hasPie)
        && nbEmptyIndices == old(nbEmptyIndices) - 1 && lastIndex == Some(index) && currentColor == Opponent(old(currentColor))
        && StoneMoved(size, old(paths[..]), old(pathBoard[..]), old(pathsEnd), index, old(currentColor), hole,
                      paths[..], pathBoard[..], pathsEnd, winnerColor, winningCycle)
    {
      if lastIndex == Some(index) {
        TakePie();
      } else {
        PlayStone(index, hole);
      }
    }

    /** The stone branch of a move, in the board's own terms. */
    method PlayStone(index: int, hole: seq<int> -> bool)
      requires Valid() && IsValidIndex(size, index) && !IsGameFinished() && pathBoard[index] == 0
      modifies this`pathsEnd, this`winnerColor, this`winningCycle, this`nbEmptyIndices, this`lastIndex, this`currentColor, paths, pathBoard
      ensures Valid()
      ensures nbEmptyIndices == old(nbEmptyIndices) - 1 && lastIndex == Some(index) && currentColor == Opponent(old(currentColor))
      ensures StoneMoved(size, old(paths[..]), old(pathBoard[..]), old(pathsEnd), index, old(currentColor), hole,
                         paths[..], pathBoard[..], pathsEnd, winnerColor, winningCycle)
    {
      ghost var ps, pb, end, color := paths[..], pathBoard[..], pathsEnd, currentColor;
      PlaceStone(index, hole);
      StoneOutcome(size, ps, pb, end, index, color, hole, paths[..], pathBoard[..], pathsEnd, winnerColor, winningCycle);
    }

    /** The pie branch of a move: the second player takes the first stone as their own. */
    method TakePie()
      modifies this`hasPie
      ensures hasPie
    {
      hasPie := true;
    }

    /** The stone branch of a move: the board after the stone, the winner check, then the turn passes. */
    method PlaceStone(index: int, hole: seq<int> -> bool)
      requires Valid() && IsValidIndex(size, index) && !IsGameFinished() && pathBoard[index] == 0
      modifies this`pathsEnd, this`winnerColor, this`winningCycle, this`nbEmptyIndices, this`lastIndex, this`currentColor, paths, pathBoard
      ensures Valid() && old(pathsEnd) < paths.Length
      ensures StoneSet(size, old(paths[..]), old(pathBoard[..]), old(pathsEnd), index, old(currentColor), hole,
                       paths[..], pathBoard[..], pathsEnd, winnerColor, winningCycle)
      ensures nbEmptyIndices == old(nbEmptyIndices) - 1 && lastIndex == Some(index) && currentColor == Opponent(old(currentColor))
    {
      ghost var ps, pb, end := paths[..], pathBoard[..], pathsEnd;
      ghost var nbEmpty, last, winner, cycle := nbEmptyIndices, lastIndex, winnerColor, winningCycle;
      RoomForPath(size, ps, pb, end, nbEmpty, last, winner, cycle);
      var color := currentColor;
      StoneOnBoard(index, hole, ps, pb, end, color);
      nbEmptyIndices := nbEmptyIndices - 1;
      lastIndex := Some(index);
      currentColor := Opponent(color);
      StoneTracked(size, ps, pb, end, nbEmpty, last, index, color, hole,
                   paths[..], pathBoard[..], pathsEnd, nbEmptyIndices, lastIndex,
                   winner, cycle, winnerColor, winningCycle);
    }

    /** The stone joins its groups, or starts a path, and the winner check follows. */
    method StoneOnBoard(index: int, hole: seq<int> -> bool, ghost ps: seq<PathInfo>, ghost pb: seq<int>, ghost end: int, color: Color)
      requires Consistent() && BoardWellFormed(paths[..], pathBoard[..], pathsEnd) && currentColor != NoColor
      requires 0 <= index < nbFullIndices && pathBoard[index] == 0 && pathsEnd < paths.Length
      requires winnerColor == NoColor && winningCycle == 0
      requires ps == paths[..] && pb == pathBoard[..] && end == pathsEnd && color == currentColor
      modifies this`pathsEnd, this`winnerColor, this`winningCycle, paths, pathBoard
      ensures StoneSet(size, ps, pb, end, index, color, hole, paths[..], pathBoard[..], pathsEnd, winnerColor, winningCycle)
    {
      var b := (ComputeBorders(size, index), ComputeCorners(size, index));
      var g := CollectNeighbours(index, b);
      StoneEffect(ps, pb, end, index, color, Neighbours(size, index), b, index);
      SetStone(index, color, g);
      UpdateWinner(g, index, color, hole);
      StoneSetFrom(size, ps, pb, end, index, color, hole, g, paths[..], pathBoard[..], pathsEnd, winnerColor, winningCycle);
    }

    /** The winner check of `play`, made only when the stone joined a group. */
    method UpdateWinner(g: Gathered, index: int, color: Color, hole: seq<int> -> bool)
      requires Consistent() && 0 <= g.least < paths.Length && 0 <= index < nbFullIndices
      requires winnerColor == NoColor && winningCycle == 0
      modifies this`winnerColor, this`winningCycle
      ensures var cyc := FormsCycle(size, paths[..], pathBoard[..], g.least, index, hole);
              && winnerColor == (if g.mains != {} && WinningPath(paths[g.least], cyc) then color else NoColor)
              && winningCycle == (if g.mains != {} && !ForkOrBridge(paths[g.least]) && cyc then g.least else 0)
    {
      if g.mains != {} {
        var win := IsWinningPath(g.least, index, hole);
        if win {
          winnerColor := color;
        }
      }
    }

    /** The stone's path: a new one when it joins no group, otherwise the groups joined under the smallest main path. */
    method SetStone(index: int, color: Color, g: Gathered)
      requires paths.Length == pathBoard.Length && 0 <= index < pathBoard.Length && 0 <= pathsEnd
      requires g.mains == {} ==> g.least == pathsEnd < paths.Length
      requires g.mains != {} ==> 0 <= g.least < pathsEnd <= paths.Length
      modifies this`pathsEnd, paths, pathBoard
      ensures (paths[..], pathBoard[..], pathsEnd) == AfterStone(old(paths[..]), old(pathBoard[..]), old(pathsEnd), index, color, g)
    {
      ghost var after := AfterStone(paths[..], pathBoard[..], pathsEnd, index, color, g);
      var mainPathIndex := g.least;
      if g.mains == {} {
        NewPath(color, g.borders, g.corners);
      } else {
        JoinPaths(g);
      }
      pathBoard[index] := mainPathIndex;
      assert pathBoard[..] == after.1;
    }

    /** The main paths of the neighbours of the current colour, the sides and corners they and the stone touch, and the least of them. */
    method CollectNeighbours(index: int, b: (bv32, bv32)) returns (g: Gathered)
      requires Consistent() && BoardWellFormed(paths[..], pathBoard[..], pathsEnd) && currentColor != NoColor
      requires 0 <= index < nbFullIndices
      ensures g == Gather(paths[..], pathBoard[..], Neighbours(size, index), currentColor, pathsEnd, b)
    {
      var nbs := neighboursBoard[index];
      assert nbs == neighboursBoard[..][index];
      g := GatherOver(nbs, b);
    }

    /** The neighbour loop of `play`, over a given list of neighbour cells. */
    method GatherOver(nbs: seq<int>, b: (bv32, bv32)) returns (g: Gathered)
      requires BoardWellFormed(paths[..], pathBoard[..], pathsEnd) && currentColor != NoColor
      requires forall k :: 0 <= k < |nbs| ==> 0 <= nbs[k] < pathBoard.Length
      ensures g == Gather(paths[..], pathBoard[..], nbs, currentColor, pathsEnd, b)
    {
      ghost var ps, pb := paths[..], pathBoard[..];
      ghost var qs := GroupPaths(ps, pb, nbs, currentColor, pathsEnd);
      var mainPathIndex, borders, corners := pathsEnd, b.0, b.1;
      var neighbourMainPathIndices: set<int> := {};
      for i := 0 to |nbs|
        invariant (neighbourMainPathIndices, mainPathIndex) == Groups(ps, pb, nbs[..i], currentColor, pathsEnd)
        invariant borders == OrAll(b.0, qs[..i], Borders)
        invariant corners == OrAll(b.1, qs[..i], Corners)
      {
        GroupsStep(ps, pb, nbs, currentColor, pathsEnd, i);
        var neighbourPathIndex := pathBoard[nbs[i]];
        if paths[neighbourPathIndex].color == currentColor {
          var neighbourMain := paths[neighbourPathIndex].mainPathIndex;
          var neighbourPath := paths[neighbourMain];
          neighbourMainPathIndices := neighbourMainPathIndices + {neighbourMain};
          OrAllJoin(b.0, qs, i, Borders, borders, neighbourPath.borders);
          OrAllJoin(b.1, qs, i, Corners, corners, neighbourPath.corners);
          borders := borders | neighbourPath.borders;
          corners := corners | neighbourPath.corners;
          mainPathIndex := Min(mainPathIndex, neighbourMain);
        } else {
          OrAllSkip(b.0, qs, i, Borders, borders);
          OrAllSkip(b.1, qs, i, Corners, corners);
        }
      }
      assert nbs[..|nbs|] == nbs;
      assert qs[..|nbs|] == qs;
      g := Gathered(neighbourMainPathIndices, borders, corners, mainPathIndex);
    }

    /** A stone joining no group starts a path of its own. */
    method NewPath(color: Color, borders: bv32, corners: bv32)
      requires 0 <= pathsEnd < paths.Length
      modifies this`pathsEnd, paths
      ensures paths[..] == old(paths[..])[old(pathsEnd) := PathInfo(old(pathsEnd), color, borders, corners)]
      ensures pathsEnd == old(pathsEnd) + 1
    {
      paths[pathsEnd] := PathInfo(pathsEnd, color, borders, corners);
      pathsEnd := pathsEnd + 1;
    }

    /** The groups around a stone become one under the smallest of their main paths, which takes the gathered masks. */
    method JoinPaths(g: Gathered)
      requires 0 <= g.least < pathsEnd <= paths.Length
      modifies paths
      ensures paths[..] == Joined(old(paths[..]), g.least, g.mains, pathsEnd, g.borders, g.corners)
    {
      ghost var ps := paths[..];
      var m := g.least;
      var main := WithMasks(paths[m], g.borders, g.corners);
      paths[m] := main;
      var others := g.mains - {m};
      if others != {} {
        RelinkPaths(m, others, main, ps);
      } else {
        assert forall j :: 0 <= j < paths.Length ==> paths[j] == if j == m || (m < j < pathsEnd && ps[j].mainPathIndex in others) then main else ps[j];
      }
      JoinedIs(ps, m, g.mains, pathsEnd, g.borders, g.corners, main, others, paths[..]);
    }

    /** The loop of `play` that moves every path of another joined group under the main path. */
    method RelinkPaths(m: int, others: set<int>, main: PathInfo, ghost ps: seq<PathInfo>)
      requires 0 <= m < pathsEnd <= paths.Length == |ps| && paths[..] == ps[m := main]
      modifies paths
      ensures forall j :: 0 <= j < paths.Length ==>
        paths[j] == if j == m || (m < j < pathsEnd && ps[j].mainPathIndex in others) then main else ps[j]
    {
      for k := m + 1 to pathsEnd
        invariant forall j :: 0 <= j < paths.Length ==>
          paths[j] == if j == m || (m < j < k && ps[j].mainPathIndex in others) then main else ps[j]
      {
        if paths[k].mainPathIndex in others {
          paths[k] := paths[m];
        }
      }
    }

    /**
     * The winner check of a joined group: a fork, then a bridge, then a
     * cycle, which is recorded as the winning cycle.
     */
    method IsWinningPath(pathIndex: int, cellIndex: int, hole: seq<int> -> bool) returns (win: bool)
      requires Consistent() && 0 <= pathIndex < paths.Length && 0 <= cellIndex < nbFullIndices
      modifies this`winningCycle
      ensures win == WinningPath(paths[pathIndex], FormsCycle(size, paths[..], pathBoard[..], pathIndex, cellIndex, hole))
      ensures winningCycle == if !ForkOrBridge(paths[pathIndex]) && FormsCycle(size, paths[..], pathBoard[..], pathIndex, cellIndex, hole)
                              then pathIndex else old(winningCycle)
    {
      var path := paths[pathIndex];
      if NbOnes(path.borders) >= 3 {
        return true;
      }
      if NbOnes(path.corners) >= 2 {
        return true;
      }
      var cycle := IsCycle(pathIndex, cellIndex, hole);
      if cycle {
        winningCycle := pathIndex;
        return true;
      }
      return false;
    }

    /**
     * Whether the group of `pathIndex`, just joined by the stone on
     * `cellIndex`, is a cycle: six cells at least, two neighbours of its
     * colour around the stone, and a surrounded cell or an enclosed region.
     */
    method IsCycle(pathIndex: int, cellIndex: int, hole: seq<int> -> bool) returns (cycle: bool)
      requires Consistent() && 0 <= pathIndex < paths.Length && 0 <= cellIndex < nbFullIndices
      ensures cycle == FormsCycle(size, paths[..], pathBoard[..], pathIndex, cellIndex, hole)
    {
      var color := paths[pathIndex].color;
      var indices := FindPathIndices(pathIndex);
      if |indices| < 6 {
        return false;
      }
      var n := ComputeNbNeighbours(cellIndex, color);
      if n < 2 {
        return false;
      }
      for i := 0 to |indices|
        invariant forall k :: 0 <= k < i ==> !Surrounded(size, paths[..], pathBoard[..], indices[k], color)
      {
        var m := ComputeNbNeighbours(indices[i], color);
        if m == 6 {
          return true;
        }
      }
      return hole(indices);
    }

    /** The cells of the group of main path `pathIndex`, in increasing order. */
    method FindPathIndices(pathIndex: int) returns (indices: seq<int>)
      requires Consistent()
      ensures indices == PathCells(paths[..], pathBoard[..], pathIndex)
    {
      indices := [];
      for k := 0 to nbFullIndices
        invariant indices == PathCells(paths[..], pathBoard[..k], pathIndex)
      {
        assert pathBoard[..k + 1][..k] == pathBoard[..k];
        var pathIndexOfK := pathBoard[k];
        var mainPathIndexOfK := paths[pathIndexOfK].mainPathIndex;
        if mainPathIndexOfK == pathIndex {
          indices := indices + [k];
        }
      }
      assert pathBoard[..nbFullIndices] == pathBoard[..];
    }

    /** How many neighbours of a cell hold a stone of `color`. */
    method ComputeNbNeighbours(cellIndex: int, color: Color) returns (nbNeighbours: int)
      requires Consistent() && 0 <= cellIndex < nbFullIndices
      ensures nbNeighbours == CountColored(paths[..], pathBoard[..], Neighbours(size, cellIndex), color)
    {
      var nbs := neighboursBoard[cellIndex];
      assert nbs == neighboursBoard[..][cellIndex];
      nbNeighbours := 0;
      for i := 0 to |nbs|
        invariant nbNeighbours == CountColored(paths[..], pathBoard[..], nbs[..i], color)
      {
        assert nbs[..i + 1][..i] == nbs[..i];
        if paths[pathBoard[nbs[i]]].color == color {
          nbNeighbours := nbNeighbours + 1;
        }
      }
      assert nbs[..|nbs|] == nbs;
    }

    /** The legal moves: the empty hexagon cells in order, then the last move when the pie rule allows taking it. */
    method FindLegalIndices() returns (legal: seq<int>)
      requires Valid()
      ensures CanPie() ==> lastIndex.Some?
      ensures legal == EmptyCells(size, pathBoard[..]) + (if CanPie() then [lastIndex.value] else [])
      ensures |legal| == nbEmptyIndices + (if CanPie() then 1 else 0)
      ensures forall k :: 0 <= k < |legal| ==>
        IsValidIndex(size, legal[k]) && (pathBoard[legal[k]] == 0 || (CanPie() && lastIndex == Some(legal[k])))
      ensures forall c :: 0 <= c < nbFullIndices && IsValidIndex(size, c) && pathBoard[c] == 0 ==> c in legal
    {
      legal := CollectEmpty();
      EmptyCellsAre(size, pathBoard[..]);
      if CanPie() {
        PieNeedsLastMove();
        legal := legal + [lastIndex.value];
      }
    }

    /** The loop of `findLegalIndices` over the whole square. */
    method CollectEmpty() returns (empty: seq<int>)
      requires size >= 1 && pathBoard.Length == nbFullIndices
      ensures empty == EmptyCells(size, pathBoard[..])
    {
      empty := [];
      for k := 0 to nbFullIndices
        invariant empty == EmptyCells(size, pathBoard[..k])
      {
        assert pathBoard[..k + 1][..k] == pathBoard[..k];
        if IsValidIndex(size, k) && pathBoard[k] == 0 {
          empty := empty + [k];
        }
      }
      assert pathBoard[..nbFullIndices] == pathBoard[..];
    }

    /** When the pie rule applies, there is a first stone to take over, and it is on a hexagon cell. */
    lemma PieNeedsLastMove()
      requires Valid() && CanPie()
      ensures lastIndex.Some? && 0 <= lastIndex.value < nbFullIndices && pathBoard[lastIndex.value] != 0
      ensures IsValidIndex(size, lastIndex.value)
    {
      HexagonCells(size);
    }

    /**
     * The cells of the winning group: the winning cycle when a cycle won,
     * otherwise the first path of the table that is a fork or a bridge,
     * which has the winner's colour.
     */
    method FindWinnerPath() returns (ghost winPathIndex: int, indices: seq<int>)
      requires Valid() && winnerColor != NoColor
      ensures 1 <= winPathIndex < pathsEnd && paths[winPathIndex].color == winnerColor
      ensures winningCycle != 0 ==> winPathIndex == winningCycle
      ensures winningCycle == 0 ==> ForkOrBridge(paths[winPathIndex]) && forall k :: 1 <= k < winPathIndex ==> !ForkOrBridge(paths[k])
      ensures indices == PathCells(paths[..], pathBoard[..], winPathIndex)
    {
      var w: int;
      if winningCycle != 0 {
        w := winningCycle;
      } else {
        w := FirstForkOrBridge();
      }
      winPathIndex := w;
      indices := FindPathIndices(w);
    }

    /** The search loop of `findWinnerPath`: the first path of the table that is a fork or a bridge. */
    method FirstForkOrBridge() returns (w: int)
      requires pathsEnd <= paths.Length && exists k :: 1 <= k < pathsEnd && ForkOrBridge(paths[k])
      ensures 1 <= w < pathsEnd && ForkOrBridge(paths[w]) && forall k :: 1 <= k < w ==> !ForkOrBridge(paths[k])
    {
      w := 1;
      while true
        invariant 1 <= w < pathsEnd
        invariant forall k :: 1 <= k < w ==> !ForkOrBridge(paths[k])
        invariant exists k :: w <= k < pathsEnd && ForkOrBridge(paths[k])
        decreases pathsEnd - w
      {
        var path := paths[w];
        if NbOnes(path.borders) >= 3 {
          break;
        }
        if NbOnes(path.corners) >= 2 {
          break;
        }
        w := w + 1;
      }
    }

    function CanPie(): bool
      reads this
    {
      pie && nbEmptyIndices == nbIndices - 1 && !hasPie
    }

    function IsGameFinished(): bool
      reads this
    {
      nbEmptyIndices == 0 || winnerColor != NoColor
    }

    function CurrentPlayer(): Player
      reads this
    {
      ColorToPlayer(currentColor, hasPie)
    }

    function WinnerPlayer(): Player
      reads this
    {
      ColorToPlayer(winnerColor, hasPie)
    }
  }
}
