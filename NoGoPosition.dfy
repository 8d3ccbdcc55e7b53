/**
 * Points of the 9x9 NoGo board and the eight symmetries of the square.
 *
 * A position is the number `y * 9 + x` of the point in column x and row y.
 * A symmetry moves a point by shifting the centre (4, 4) to the origin,
 * negating and swapping coordinates, and shifting back. The reference for
 * each symmetry is its closed form `Image`, the point it maps (x, y) to;
 * the step-by-step method `Point.ToSymmetryOf` is proved against it.
 */
module NoGoPosition {

  /** kNOGO_BOARD_SIZE. */
  const BoardSize: int := 9

  /** kNOGO_GRIDS_NUM. */
  const GridsNum: int := 81

  /** SYMMETRYTYPE, whose last value SymmetrySize is also "no symmetry". */
  datatype Symmetry =
    | Normal
    | Rotate90
    | Rotate180
    | Rotate270
    | Reflection
    | ReflectionRotate90
    | ReflectionRotate180
    | ReflectionRotate270
    | SymmetrySize

  /** The number of each enumerator. */
  function Ordinal(t: Symmetry): (n: nat)
    ensures n <= 8
    ensures n == 8 <==> t == SymmetrySize
  {
    match t
    case Normal => 0
    case Rotate90 => 1
    case Rotate180 => 2
    case Rotate270 => 3
    case Reflection => 4
    case ReflectionRotate90 => 5
    case ReflectionRotate180 => 6
    case ReflectionRotate270 => 7
    case SymmetrySize => 8
  }

  /** kSYMMETRY_LIST: the eight symmetries in the order of their numbers. */
  const SymmetryList: seq<Symmetry> := [Normal, Rotate90, Rotate180, Rotate270, Reflection, ReflectionRotate90, ReflectionRotate180, ReflectionRotate270]

  /** kSYMMETRY_TYPE_STRING. */
  const SymmetryNames: seq<string> := ["SYM_NORMAL", "SYM_ROTATE_90", "SYM_ROTATE_180", "SYM_ROTATE_270", "SYM_HORIZONTAL_REFLECTION", "SYM_HORIZONTAL_REFLECTION_ROTATE_90", "SYM_HORIZONTAL_REFLECTION_ROTATE_180", "SYM_HORIZONTAL_REFLECTION_ROTATE_270"]

  /** kREVERSE_SYMMETRIC_TYPE. */
  const ReverseTable: seq<Symmetry> := [Normal, Rotate270, Rotate180, Rotate90, Reflection, ReflectionRotate90, ReflectionRotate180, ReflectionRotate270]

  /** `static_cast<SYMMETRYTYPE>(i)`: the i-th entry of the list is the symmetry numbered i. */
  lemma ListNumbers(i: nat)
    requires i < 8
    ensures Ordinal(SymmetryList[i]) == i
  {
  }

  /** `GetSymmetryTypeString(t)`: the name of a symmetry. */
  function TypeString(t: Symmetry): (r: string)
    requires t != SymmetrySize
    ensures r in SymmetryNames
  {
    SymmetryNames[Ordinal(t)]
  }

  /** No two symmetries share a name. */
  lemma NamesDistinct(i: nat, j: nat)
    requires i < 8 && j < 8 && SymmetryNames[i] == SymmetryNames[j]
    ensures i == j
  {
  }

  /**
   * `GetSymmetryType(sType)`: the first symmetry named sType, or
   * SymmetrySize when no symmetry has that name.
   */
  method GetSymmetryType(sType: string) returns (r: Symmetry)
    ensures r == SymmetrySize <==> sType !in SymmetryNames
    ensures r != SymmetrySize ==> TypeString(r) == sType
  {
    for i := 0 to 8
      invariant forall j :: 0 <= j < i ==> SymmetryNames[j] != sType
    {
      if sType == SymmetryNames[i] {
        ListNumbers(i);
        return SymmetryList[i];
      }
    }
    return SymmetrySize;
  }

  /** Looking up the name of a symmetry gives the symmetry back. */
  lemma NameRoundTrip(t: Symmetry, r: Symmetry)
    requires t != SymmetrySize
    requires r == SymmetrySize <==> TypeString(t) !in SymmetryNames
    requires r != SymmetrySize ==> TypeString(r) == TypeString(t)
    ensures r == t
  {
    NamesDistinct(Ordinal(r), Ordinal(t));
  }

  /** The symmetry that undoes t, from kREVERSE_SYMMETRIC_TYPE. */
  function Reverse(t: Symmetry): (r: Symmetry)
    requires t != SymmetrySize
    ensures r != SymmetrySize
  {
    ReverseTable[Ordinal(t)]
  }

  /** Undoing the undoing gives the symmetry back. */
  lemma ReverseInvolution(t: Symmetry)
    requires t != SymmetrySize
    ensures Reverse(Reverse(t)) == t
  {
  }

  // ---------------------------------------------------------------------
  // The closed forms of the symmetries

  /** The point symmetry t maps (x, y) to, about the centre (4, 4). */
  function Image(t: Symmetry, x: int, y: int): (int, int)
    requires t != SymmetrySize
  {
    match t
    case Normal => (x, y)
    case Rotate90 => (y, 8 - x)
    case Rotate180 => (8 - x, 8 - y)
    case Rotate270 => (8 - y, x)
    case Reflection => (8 - x, y)
    case ReflectionRotate90 => (y, x)
    case ReflectionRotate180 => (x, 8 - y)
    case ReflectionRotate270 => (8 - y, 8 - x)
  }

  predicate OnBoard(x: int, y: int)
  {
    0 <= x < BoardSize && 0 <= y < BoardSize
  }

  /** Every symmetry maps the board onto itself. */
  lemma ImageOnBoard(t: Symmetry, x: int, y: int)
    requires t != SymmetrySize
    ensures OnBoard(Image(t, x, y).0, Image(t, x, y).1) <==> OnBoard(x, y)
  {
  }

  /** The reverse symmetry maps every image back to its point. */
  lemma ImageReverse(t: Symmetry, x: int, y: int)
    requires t != SymmetrySize
    ensures var (x', y') := Image(t, x, y); Image(Reverse(t), x', y') == (x, y)
  {
  }

  /** Two quarter turns make a half turn, and four make no turn. */
  lemma QuarterTurns(x: int, y: int)
    ensures var (x1, y1) := Image(Rotate90, x, y); Image(Rotate90, x1, y1) == Image(Rotate180, x, y)
    ensures var (x2, y2) := Image(Rotate180, x, y); Image(Rotate180, x2, y2) == (x, y)
  {
  }

  // ---------------------------------------------------------------------
  // Positions

  /** `p / kNOGO_BOARD_SIZE`, rounding toward zero as C++ does. */
  function RowOf(p: int): int
  {
    if p >= 0 then p / 9 else -((-p) / 9)
  }

  /** `p % kNOGO_BOARD_SIZE`, taking the sign of p as C++ does. */
  function ColumnOf(p: int): int
  {
    if p >= 0 then p % 9 else -((-p) % 9)
  }

  /** `GetPosition()` of the point (x, y). */
  function PositionOf(x: int, y: int): int
  {
    y * BoardSize + x
  }

  /** `Point(p).GetPosition()` gives p back, for every p. */
  lemma PositionRoundTrip(p: int)
    ensures PositionOf(ColumnOf(p), RowOf(p)) == p
  {
  }

  /** A position of the board is a point of the board, and a point of the board is one position. */
  lemma CoordinatesRoundTrip(x: int, y: int)
    requires OnBoard(x, y)
    ensures 0 <= PositionOf(x, y) < GridsNum
    ensures ColumnOf(PositionOf(x, y)) == x && RowOf(PositionOf(x, y)) == y
  {
  }

  lemma PositionOnBoard(p: int)
    requires 0 <= p < GridsNum
    ensures OnBoard(ColumnOf(p), RowOf(p))
  {
  }

  /** The position that symmetry t maps position p to. */
  function SymmetricPosition(t: Symmetry, p: int): int
    requires t != SymmetrySize
  {
    var (x, y) := Image(t, ColumnOf(p), RowOf(p));
    PositionOf(x, y)
  }

  /** Each symmetry permutes the 81 positions: it stays on the board and its reverse undoes it. */
  lemma SymmetricPositionReverse(t: Symmetry, p: int)
    requires t != SymmetrySize && 0 <= p < GridsNum
    ensures 0 <= SymmetricPosition(t, p) < GridsNum
    ensures SymmetricPosition(Reverse(t), SymmetricPosition(t, p)) == p
  {
    var x, y := ColumnOf(p), RowOf(p);
    PositionOnBoard(p);
    var (x', y') := Image(t, x, y);
    ImageOnBoard(t, x, y);
    CoordinatesRoundTrip(x', y');
    ImageReverse(t, x, y);
    PositionRoundTrip(p);
  }

  // ---------------------------------------------------------------------
  // Point

  /** `Point`: a column and a row, changed in place by a symmetry. */
  class Point {
    var x: int
    var y: int

    /** `Point(x, y)`. */
    constructor (x0: int, y0: int)
      ensures x == x0 && y == y0
    {
      x, y := x0, y0;
    }

    /** `Point(p)`: the column and row of position p. */
    constructor FromPosition(p: int)
      ensures x == ColumnOf(p) && y == RowOf(p)
      ensures 0 <= p < GridsNum ==> OnBoard(x, y)
      ensures GetPosition() == p
    {
      x, y := p % BoardSize, p / BoardSize;
      if p < 0 {
        x, y := -((-p) % BoardSize), -((-p) / BoardSize);
      }
      new;
      PositionRoundTrip(p);
      if 0 <= p < GridsNum {
        PositionOnBoard(p);
      }
    }

    /** `operator==`. */
    predicate Equals(rhs: Point)
      reads this, rhs
    {
      x == rhs.x && y == rhs.y
    }

    /** `operator!=`. */
    predicate NotEquals(rhs: Point)
      reads this, rhs
    {
      !Equals(rhs)
    }

    /** `operator=(const Point&)`. */
    method Assign(rhs: Point)
      modifies this
      ensures x == old(rhs.x) && y == old(rhs.y)
    {
      x, y := rhs.x, rhs.y;
    }

    /** `operator=(const Position&)`: `*this = Point(p)`. */
    method AssignPosition(p: int)
      modifies this
      ensures x == ColumnOf(p) && y == RowOf(p)
      ensures GetPosition() == p
    {
      var q := new Point.FromPosition(p);
      Assign(q);
    }

    /** `GetPosition()`. */
    function GetPosition(): (r: int)
      reads this
      ensures OnBoard(x, y) ==> 0 <= r < GridsNum && ColumnOf(r) == x && RowOf(r) == y
    {
      GuardedCoordinatesRoundTrip(x, y);
      y * BoardSize + x
    }

    /**
     * `ToSymmetryOf(type)`: the point moved by the symmetry. The source
     * asserts that type is one of the eight symmetries.
     */
    method ToSymmetryOf(t: Symmetry)
      requires t != SymmetrySize
      modifies this
      ensures (x, y) == Image(t, old(x), old(y))
    {
      Shift();
      match t {
        case Normal =>
        case Rotate90 =>
          ChangeXY();
          MinusY();
        case Rotate180 =>
          MinusX();
          MinusY();
        case Rotate270 =>
          ChangeXY();
          MinusX();
        case Reflection =>
          MinusX();
        case ReflectionRotate90 =>
          ChangeXY();
        case ReflectionRotate180 =>
          MinusY();
        case ReflectionRotate270 =>
          ChangeXY();
          MinusX();
          MinusY();
      }
      ShiftBack();
    }

    method MinusX()
      modifies this
      ensures x == -old(x) && y == old(y)
    {
      x := -x;
    }

    method MinusY()
      modifies this
      ensures x == old(x) && y == -old(y)
    {
      y := -y;
    }

    method ChangeXY()
      modifies this
      ensures x == old(y) && y == old(x)
    {
      var tmp := x;
      x := y;
      y := tmp;
    }

    /** Moves the centre `kNOGO_BOARD_SIZE / 2` = 4 to the origin. */
    method Shift()
      modifies this
      ensures x == old(x) - 4 && y == old(y) - 4
    {
      var center := BoardSize / 2;
      x := x - center;
      y := y - center;
    }

    /** Moves the origin back to the centre. */
    method ShiftBack()
      modifies this
      ensures x == old(x) + 4 && y == old(y) + 4
    {
      var center := BoardSize / 2;
      x := x + center;
      y := y + center;
    }
  }

  /** CoordinatesRoundTrip, stated under the guard `GetPosition` uses. */
  lemma GuardedCoordinatesRoundTrip(x: int, y: int)
    ensures OnBoard(x, y) ==> 0 <= PositionOf(x, y) < GridsNum && ColumnOf(PositionOf(x, y)) == x && RowOf(PositionOf(x, y)) == y
  {
    if OnBoard(x, y) {
      CoordinatesRoundTrip(x, y);
    }
  }
}
