/**
 * The Hex board: a rhombus of SIZE x SIZE hexagonal cells on which Black
 * tries to join the first and last rows and White the first and last
 * columns. Each stone belongs to a path; connected paths of one colour are
 * merged under the smallest path index (their main path), which carries
 * whether the group touches the colour's two borders. With the pie rule,
 * the second player may take over the first stone instead of moving.
 */
module Hex {
  import opened Wrappers

  datatype Color = Black | White | NoColor

  datatype Player = Player0 | Player1 | PlayerNull

  /** A path: the index of its main path, its colour, and the borders its group touches. */
  datatype PathInfo = PathInfo(mainPathIndex: int, color: Color, border1: bool, border2: bool)

  const EmptyPath := PathInfo(0, NoColor, false, false)

  function Opponent(c: Color): Color
  {
    if c == Black then White else Black
  }

  /** The (row, column) of a cell index. */
  function IndexToCell(size: nat, index: int): (cell: (int, int))
    requires size > 0
    ensures 0 <= index < size * size ==> 0 <= cell.0 < size && 0 <= cell.1 < size
  {
    (index / size, index % size)
  }

  function CellToIndex(size: nat, cell: (int, int)): int
  {
    cell.0 * size + cell.1
  }

  predicate IsValidCell(size: nat, cell: (int, int))
  {
    0 <= cell.0 < size && 0 <= cell.1 < size
  }

  /** The two conversions are inverse on the board. */
  lemma CellIndexInverse(size: nat, index: int, cell: (int, int))
    requires size > 0
    ensures 0 <= index < size * size ==>
      IsValidCell(size, IndexToCell(size, index)) && CellToIndex(size, IndexToCell(size, index)) == index
    ensures IsValidCell(size, cell) ==>
      0 <= CellToIndex(size, cell) < size * size && IndexToCell(size, CellToIndex(size, cell)) == cell
  {
    if IsValidCell(size, cell) {
      var k := cell.0 * size + cell.1;
      MulBelow(cell.0, size);
      DivModUnique(k, size, cell.0, cell.1);
    }
  }

  /** A row below `size` starts within the board. */
  lemma MulBelow(i: int, size: nat)
    requires 0 <= i < size
    ensures 0 <= i * size <= size * size - size
  {
    assert i * size <= (size - 1) * size;
  }

  lemma DivModUnique(k: int, size: nat, q: int, r: int)
    requires size > 0 && 0 <= r < size && k == q * size + r
    ensures k / size == q && k % size == r
  {
    var q', r' := k / size, k % size;
    assert (q - q') * size == r' - r;
    if q > q' {
      MulAtLeast(q - q', size);
    } else if q < q' {
      MulAtLeast(q' - q, size);
    }
  }

  lemma MulAtLeast(a: int, b: nat)
    requires a >= 1
    ensures a * b >= b
  {
  }

  /** The next row starts where this one ends. */
  lemma NextRow(size: nat, i: int)
    ensures (i + 1) * size == i * size + size
  {
  }

  /** The six candidate neighbours of (i, j), in the order the board lists them. */
  function Around(i: int, j: int): seq<(int, int)>
  {
    [(i - 1, j), (i - 1, j + 1), (i, j - 1), (i, j + 1), (i + 1, j - 1), (i + 1, j)]
  }

  /** The indices of the valid cells among `cells`, in order. */
  function ValidIndices(size: nat, cells: seq<(int, int)>): (r: seq<int>)
    ensures |r| <= |cells|
    ensures forall k :: 0 <= k < |r| ==> 0 <= r[k] < size * size
  {
    if |cells| == 0 then []
    else
      var rest := ValidIndices(size, cells[1..]);
      if IsValidCell(size, cells[0]) then
        CellIndexInverse(size, 0, cells[0]);
        [CellToIndex(size, cells[0])] + rest
      else rest
  }

  /** The neighbour list of a cell: its valid neighbours' indices. */
  function Neighbours(size: nat, index: int): (r: seq<int>)
    requires size > 0
    ensures |r| <= 6
    ensures forall k :: 0 <= k < |r| ==> 0 <= r[k] < size * size
  {
    var cell := IndexToCell(size, index);
    ValidIndices(size, Around(cell.0, cell.1))
  }

  /** The cell (i, j) has index i * size + j, and its neighbour list is that of its six candidates. */
  lemma NeighboursOfCell(size: nat, i: int, j: int)
    requires 0 <= i < size && 0 <= j < size
    ensures 0 <= i * size + j < size * size
    ensures Neighbours(size, i * size + j) == ValidIndices(size, Around(i, j))
  {
    MulBelow(i, size);
    CellIndexInverse(size, i * size + j, (i, j));
  }

  /**
   * The borders a stone of `color` at `index` touches: the first and last
   * rows for Black, the first and last columns for White, none otherwise.
   */
  function BorderConnection(size: nat, index: int, color: Color): (r: (bool, bool))
    requires size > 0
    ensures color == Black && 0 <= index < size * size ==>
      r == (IndexToCell(size, index).0 == 0, IndexToCell(size, index).0 == size - 1)
    ensures color == White ==> r == (IndexToCell(size, index).1 == 0, IndexToCell(size, index).1 == size - 1)
    ensures color == NoColor ==> r == (false, false)
  {
    if color == Black then
      RowBorders(size, index);
      (index < size, index >= size * size - size)
    else if color == White then
      var j := index % size;
      (j == 0, j == size - 1)
    else (false, false)
  }

  lemma RowBorders(size: nat, index: int)
    requires size > 0
    ensures 0 <= index < size * size ==>
      (index < size <==> index / size == 0) && (index >= size * size - size <==> index / size == size - 1)
  {
    if 0 <= index < size * size {
      var q, r := index / size, index % size;
      assert index == q * size + r;
      if q >= size {
        MulAtLeast(q - size + 1, size);
      } else if q == size - 1 {
        assert q * size == size * size - size;
      } else {
        MulBelow(q + 1, size);
        assert (q + 1) * size == q * size + size;
      }
      if q == 0 {
      } else {
        MulAtLeast(q, size);
      }
    }
  }

  /** The flags of `a` are among those of `b`. */
  predicate FlagsWithin(a: PathInfo, b: PathInfo)
  {
    (a.border1 ==> b.border1) && (a.border2 ==> b.border2)
  }

  /**
   * The path table below `end`: path 0 is the empty path; every other path
   * names a main path at or below itself, which is its own main path, has
   * its colour, and has every flag it has.
   */
  ghost predicate PathsWellFormed(ps: seq<PathInfo>, end: int)
  {
    && 1 <= end <= |ps|
    && ps[0] == EmptyPath
    && forall k :: 1 <= k < end ==>
         && 1 <= ps[k].mainPathIndex <= k
         && ps[k].color != NoColor
         && ps[ps[k].mainPathIndex].mainPathIndex == ps[k].mainPathIndex
         && ps[ps[k].mainPathIndex].color == ps[k].color
         && FlagsWithin(ps[k], ps[ps[k].mainPathIndex])
  }

  /** The empty cells, in increasing order. */
  function EmptyCells(pb: seq<int>): seq<int>
  {
    if |pb| == 0 then []
    else
      var front := EmptyCells(pb[..|pb| - 1]);
      if pb[|pb| - 1] == 0 then front + [|pb| - 1] else front
  }

  /** The empty cells are listed once each, in increasing order, and nothing else is. */
  lemma {:induction false} EmptyCellsAre(pb: seq<int>)
    ensures var r := EmptyCells(pb);
            && (forall k :: 0 <= k < |r| ==> 0 <= r[k] < |pb| && pb[r[k]] == 0)
            && (forall c :: 0 <= c < |pb| && pb[c] == 0 ==> c in r)
            && (forall a, b :: 0 <= a < b < |r| ==> r[a] < r[b])
  {
    if |pb| > 0 {
      var n := |pb| - 1;
      var front := pb[..n];
      EmptyCellsAre(front);
      var f := EmptyCells(front);
      assert forall c :: 0 <= c < n ==> front[c] == pb[c];
      var r := if pb[n] == 0 then f + [n] else f;
      assert EmptyCells(pb) == r;
      forall k | 0 <= k < |r|
        ensures 0 <= r[k] < |pb| && pb[r[k]] == 0
      {
        if k < |f| {
          assert r[k] == f[k];
        }
      }
    }
  }

  /** Filling one empty cell leaves one empty cell fewer. */
  lemma {:induction false} FillOne(pb: seq<int>, c: int, v: int)
    requires 0 <= c < |pb| && pb[c] == 0 && v != 0
    ensures |EmptyCells(pb[c := v])| == |EmptyCells(pb)| - 1
  {
    var n := |pb| - 1;
    if c < n {
      assert pb[c := v][..n] == pb[..n][c := v];
      FillOne(pb[..n], c, v);
    } else {
      assert pb[c := v][..n] == pb[..n];
    }
  }

  /** The cells no stone has been placed on yet. */
  lemma AllEmpty(n: nat)
    ensures |EmptyCells(seq(n, _ => 0))| == n
  {
    if n > 0 {
      assert seq(n, _ => 0)[..n - 1] == seq(n - 1, _ => 0);
      AllEmpty(n - 1);
    }
  }

  function ColorToPlayer(color: Color, hasPie: bool): (p: Player)
    ensures p == PlayerNull <==> color == NoColor
  {
    if color == NoColor then PlayerNull
    else if color == Black then (if hasPie then Player1 else Player0)
    else (if hasPie then Player0 else Player1)
  }

  /** Every cell on a path below `end`. */
  ghost predicate CellsIn(pb: seq<int>, end: int)
  {
    forall c :: 0 <= c < |pb| ==> 0 <= pb[c] < end
  }

  ghost predicate BoardWellFormed(ps: seq<PathInfo>, pb: seq<int>, end: int)
  {
    PathsWellFormed(ps, end) && CellsIn(pb, end)
  }

  /** The main path of the stone on cell `c` (0 for an empty cell). */
  function MainAt(ps: seq<PathInfo>, pb: seq<int>, c: int): int
    requires 0 <= c < |pb| && 0 <= pb[c] < |ps|
  {
    ps[pb[c]].mainPathIndex
  }

  function ColorAt(ps: seq<PathInfo>, pb: seq<int>, c: int): Color
    requires 0 <= c < |pb| && 0 <= pb[c] < |ps|
  {
    ps[pb[c]].color
  }

  /** A stone on a cell is exactly a cell off the empty path 0. */
  lemma ColoredIffOccupied(ps: seq<PathInfo>, pb: seq<int>, end: int, c: int)
    requires BoardWellFormed(ps, pb, end) && 0 <= c < |pb|
    ensures ColorAt(ps, pb, c) == NoColor <==> pb[c] == 0
    ensures MainAt(ps, pb, c) == 0 <==> pb[c] == 0
  {
  }

  /**
   * What the neighbours of a new stone of `color` contribute: the main paths
   * of those of its colour, the borders those paths and the stone itself
   * (`b`) touch, and the smallest of those main paths, `end` when there is
   * none.
   */
  datatype Gathered = Gathered(mains: set<int>, border1: bool, border2: bool, least: int)

  function Gather(ps: seq<PathInfo>, pb: seq<int>, nbs: seq<int>, color: Color, end: int, b: (bool, bool)): (g: Gathered)
    requires BoardWellFormed(ps, pb, end) && color != NoColor
    requires forall k :: 0 <= k < |nbs| ==> 0 <= nbs[k] < |pb|
    ensures 1 <= g.least <= end && (g.mains == {} <==> g.least == end)
  {
    if |nbs| == 0 then Gathered({}, b.0, b.1, end)
    else
      var g := Gather(ps, pb, nbs[..|nbs| - 1], color, end, b);
      var c := nbs[|nbs| - 1];
      if ColorAt(ps, pb, c) == color then
        var r := MainAt(ps, pb, c);
        Gathered(g.mains + {r}, g.border1 || ps[r].border1, g.border2 || ps[r].border2, Min(g.least, r))
      else g
  }

  /**
   * The gathered main paths are main paths of the stone's colour, the least
   * of them is their minimum (`end` when there is none), and the borders
   * are those of the stone and of the gathered paths.
   */
  lemma {:induction false} GatherSpec(ps: seq<PathInfo>, pb: seq<int>, nbs: seq<int>, color: Color, end: int, b: (bool, bool))
    requires BoardWellFormed(ps, pb, end) && color != NoColor
    requires forall k :: 0 <= k < |nbs| ==> 0 <= nbs[k] < |pb|
    ensures var g := Gather(ps, pb, nbs, color, end, b);
            && (forall r :: r in g.mains ==> 1 <= r < end && ps[r].mainPathIndex == r && ps[r].color == color)
            && (g.mains == {} ==> g.least == end)
            && (g.mains != {} ==> g.least in g.mains && forall r :: r in g.mains ==> g.least <= r)
            && g.border1 == (b.0 || exists r :: r in g.mains && ps[r].border1)
            && g.border2 == (b.1 || exists r :: r in g.mains && ps[r].border2)
  {
    if |nbs| > 0 {
      GatherSpec(ps, pb, nbs[..|nbs| - 1], color, end, b);
    }
  }

  /** The gathered main paths are those of the neighbours of the same colour. */
  lemma {:induction false} GatherMains(ps: seq<PathInfo>, pb: seq<int>, nbs: seq<int>, color: Color, end: int, b: (bool, bool), r: int)
    requires BoardWellFormed(ps, pb, end) && color != NoColor
    requires forall k :: 0 <= k < |nbs| ==> 0 <= nbs[k] < |pb|
    ensures r in Gather(ps, pb, nbs, color, end, b).mains <==>
      exists k :: 0 <= k < |nbs| && ColorAt(ps, pb, nbs[k]) == color && MainAt(ps, pb, nbs[k]) == r
  {
    if |nbs| > 0 {
      var front := nbs[..|nbs| - 1];
      GatherMains(ps, pb, front, color, end, b, r);
      if exists k :: 0 <= k < |front| && ColorAt(ps, pb, front[k]) == color && MainAt(ps, pb, front[k]) == r {
        var k :| 0 <= k < |front| && ColorAt(ps, pb, front[k]) == color && MainAt(ps, pb, front[k]) == r;
        assert nbs[k] == front[k];
      }
      if exists k :: 0 <= k < |nbs| && ColorAt(ps, pb, nbs[k]) == color && MainAt(ps, pb, nbs[k]) == r {
        var k :| 0 <= k < |nbs| && ColorAt(ps, pb, nbs[k]) == color && MainAt(ps, pb, nbs[k]) == r;
        if k < |front| {
          assert front[k] == nbs[k];
        }
      }
    }
  }

  /** The main path with the borders of the joined group. */
  function JoinedMain(ps: seq<PathInfo>, m: int, b1: bool, b2: bool): PathInfo
    requires 0 <= m < |ps|
  {
    ps[m].(border1 := ps[m].border1 || b1, border2 := ps[m].border2 || b2)
  }

  /**
   * The path table once the groups `mains` are joined under `m`: the main
   * path takes the borders, and every path above it that belonged to
   * another joined group becomes a copy of it.
   */
  function Joined(ps: seq<PathInfo>, m: int, mains: set<int>, end: int, b1: bool, b2: bool): (r: seq<PathInfo>)
    requires 0 <= m < |ps|
    ensures |r| == |ps|
  {
    var main := JoinedMain(ps, m, b1, b2);
    seq(|ps|, k requires 0 <= k < |ps| =>
      if k == m || (m < k < end && ps[k].mainPathIndex in mains && ps[k].mainPathIndex != m) then main else ps[k])
  }

  /**
   * Joining keeps the table well formed: every path of a joined group now
   * has `m` as main path, every other path keeps its main path, and no
   * path changes colour.
   */
  lemma JoinedWellFormed(ps: seq<PathInfo>, m: int, mains: set<int>, end: int, b1: bool, b2: bool, color: Color, k: int)
    requires PathsWellFormed(ps, end)
    requires forall r :: r in mains ==> 1 <= r < end && ps[r].mainPathIndex == r && ps[r].color == color
    requires m in mains && forall r :: r in mains ==> m <= r
    requires 0 <= k < end
    ensures PathsWellFormed(Joined(ps, m, mains, end, b1, b2), end)
    ensures Joined(ps, m, mains, end, b1, b2)[k].mainPathIndex == if ps[k].mainPathIndex in mains then m else ps[k].mainPathIndex
    ensures Joined(ps, m, mains, end, b1, b2)[k].color == ps[k].color
  {
    var js := Joined(ps, m, mains, end, b1, b2);
    forall j | 1 <= j < end
      ensures 1 <= js[j].mainPathIndex <= j
      ensures js[j].color != NoColor
      ensures js[js[j].mainPathIndex].mainPathIndex == js[j].mainPathIndex
      ensures js[js[j].mainPathIndex].color == js[j].color
      ensures FlagsWithin(js[j], js[js[j].mainPathIndex])
    {
      var r := ps[j].mainPathIndex;
      if r in mains {
        assert m <= r <= j;
      } else {
        assert r != m;
        assert js[r] == ps[r];
      }
    }
  }

  /**
   * The path table, the board and the end of the table once a stone of
   * `color` is on `index`: a path of its own when it joins no group,
   * otherwise the joined groups' smallest main path.
   */
  function AfterStone(ps: seq<PathInfo>, pb: seq<int>, end: int, index: int, color: Color, g: Gathered): (seq<PathInfo>, seq<int>, int)
    requires 0 <= index < |pb| && 0 <= end && 0 <= g.least < |ps|
    requires g.mains == {} ==> end < |ps|
  {
    if g.mains == {} then (ps[end := PathInfo(end, color, g.border1, g.border2)], pb[index := end], end + 1)
    else (Joined(ps, g.least, g.mains, end, g.border1, g.border2), pb[index := g.least], end)
  }

  /**
   * Placing a stone keeps the board well formed, gives the cell the
   * stone's colour and leaves the others' alone, moves exactly the groups
   * around the stone under the stone's main path, and gives that path the
   * borders gathered from the stone and its neighbours.
   */
  lemma StoneEffect(ps: seq<PathInfo>, pb: seq<int>, end: int, index: int, color: Color, nbs: seq<int>, b: (bool, bool), c: int,
                    g: Gathered, ps2: seq<PathInfo>, pb2: seq<int>, end2: int)
    requires BoardWellFormed(ps, pb, end) && color != NoColor && end <= |ps|
    requires 0 <= index < |pb| && pb[index] == 0
    requires forall k :: 0 <= k < |nbs| ==> 0 <= nbs[k] < |pb|
    requires g == Gather(ps, pb, nbs, color, end, b)
    requires g.mains == {} ==> end < |ps|
    requires (ps2, pb2, end2) == AfterStone(ps, pb, end, index, color, g)
    requires 0 <= c < |pb|
    ensures BoardWellFormed(ps2, pb2, end2)
    ensures |ps2| == |ps| && |pb2| == |pb|
    ensures pb2[index] == g.least && g.least != 0
    ensures ColorAt(ps2, pb2, index) == color
    ensures MainAt(ps2, pb2, index) == g.least
    ensures ps2[g.least].border1 == g.border1 && ps2[g.least].border2 == g.border2
    ensures c != index ==> ColorAt(ps2, pb2, c) == ColorAt(ps, pb, c)
    ensures c != index ==> MainAt(ps2, pb2, c) == if MainAt(ps, pb, c) in g.mains then g.least else MainAt(ps, pb, c)
    ensures MainAt(ps, pb, c) !in g.mains ==> MainAt(ps, pb, c) != g.least
    ensures g.mains == {} ==> g.least == end && g.border1 == b.0 && g.border2 == b.1
    ensures g.mains != {} ==> 1 <= g.least < end
  {
    GatherSpec(ps, pb, nbs, color, end, b);
    if g.mains == {} {
      NewPathEffect(ps, pb, end, index, color, g.border1, g.border2);
    } else {
      JoinEffect(ps, pb, end, index, color, g, c);
    }
  }

  lemma NewPathEffect(ps: seq<PathInfo>, pb: seq<int>, end: int, index: int, color: Color, b1: bool, b2: bool)
    requires BoardWellFormed(ps, pb, end) && color != NoColor && end < |ps|
    requires 0 <= index < |pb|
    ensures BoardWellFormed(ps[end := PathInfo(end, color, b1, b2)], pb[index := end], end + 1)
  {
    var ps2 := ps[end := PathInfo(end, color, b1, b2)];
    forall j | 1 <= j < end
      ensures ps2[j] == ps[j] && ps2[ps2[j].mainPathIndex] == ps[ps[j].mainPathIndex]
    {
    }
  }

  lemma JoinEffect(ps: seq<PathInfo>, pb: seq<int>, end: int, index: int, color: Color, g: Gathered, c: int)
    requires BoardWellFormed(ps, pb, end) && color != NoColor && end <= |ps|
    requires 0 <= index < |pb| && 0 <= c < |pb|
    requires forall r :: r in g.mains ==> 1 <= r < end && ps[r].mainPathIndex == r && ps[r].color == color
    requires g.least in g.mains && forall r :: r in g.mains ==> g.least <= r
    ensures var js := Joined(ps, g.least, g.mains, end, g.border1, g.border2);
            && BoardWellFormed(js, pb[index := g.least], end)
            && js[g.least].mainPathIndex == g.least && js[g.least].color == color
            && js[pb[c]].mainPathIndex == (if ps[pb[c]].mainPathIndex in g.mains then g.least else ps[pb[c]].mainPathIndex)
            && js[pb[c]].color == ps[pb[c]].color
  {
    JoinedWellFormed(ps, g.least, g.mains, end, g.border1, g.border2, color, pb[c]);
    JoinedWellFormed(ps, g.least, g.mains, end, g.border1, g.border2, color, g.least);
  }

  /**
   * What a stone of `color` on `index` does to the groups: the cell takes
   * the colour, no other cell changes colour, every neighbour of that
   * colour ends in the stone's group, and a cell whose group changed is now
   * in the stone's group and was in the group of a neighbour of that colour.
   */
  ghost predicate StoneJoined(ps: seq<PathInfo>, pb: seq<int>, ps2: seq<PathInfo>, pb2: seq<int>, index: int, color: Color, nbs: seq<int>)
    requires CellsIn(pb, |ps|) && CellsIn(pb2, |ps2|) && |pb2| == |pb| && 0 <= index < |pb|
    requires forall k :: 0 <= k < |nbs| ==> 0 <= nbs[k] < |pb|
  {
    && ColorAt(ps2, pb2, index) == color
    && (forall c :: 0 <= c < |pb| && c != index ==> ColorAt(ps2, pb2, c) == ColorAt(ps, pb, c))
    && (forall k :: 0 <= k < |nbs| && ColorAt(ps2, pb2, nbs[k]) == color ==> MainAt(ps2, pb2, nbs[k]) == MainAt(ps2, pb2, index))
    && (forall c :: 0 <= c < |pb| && c != index && MainAt(ps2, pb2, c) != MainAt(ps, pb, c) ==> MainAt(ps2, pb2, c) == MainAt(ps2, pb2, index))
    && (forall c :: 0 <= c < |pb| && c != index && MainAt(ps2, pb2, c) != MainAt(ps, pb, c) ==>
          exists k :: 0 <= k < |nbs| && ColorAt(ps, pb, nbs[k]) == color && MainAt(ps, pb, nbs[k]) == MainAt(ps, pb, c))
  }

  /** A stone joins exactly the groups around it, whose borders its own group gathers. */
  lemma StoneJoins(ps: seq<PathInfo>, pb: seq<int>, end: int, index: int, color: Color, nbs: seq<int>, b: (bool, bool))
    requires BoardWellFormed(ps, pb, end) && color != NoColor && end <= |ps|
    requires 0 <= index < |pb| && pb[index] == 0
    requires forall k :: 0 <= k < |nbs| ==> 0 <= nbs[k] < |pb|
    requires Gather(ps, pb, nbs, color, end, b).mains == {} ==> end < |ps|
    ensures var g := Gather(ps, pb, nbs, color, end, b);
            var (ps2, pb2, end2) := AfterStone(ps, pb, end, index, color, g);
            && BoardWellFormed(ps2, pb2, end2) && |pb2| == |pb|
            && StoneJoined(ps, pb, ps2, pb2, index, color, nbs)
            && ps2[MainAt(ps2, pb2, index)].border1 == g.border1
            && ps2[MainAt(ps2, pb2, index)].border2 == g.border2
  {
    var g := Gather(ps, pb, nbs, color, end, b);
    var (ps2, pb2, end2) := AfterStone(ps, pb, end, index, color, g);
    StoneEffect(ps, pb, end, index, color, nbs, b, index, g, ps2, pb2, end2);
    forall c | 0 <= c < |pb| && c != index
      ensures ColorAt(ps2, pb2, c) == ColorAt(ps, pb, c)
      ensures MainAt(ps2, pb2, c) != MainAt(ps, pb, c) ==> MainAt(ps2, pb2, c) == MainAt(ps2, pb2, index)
      ensures MainAt(ps2, pb2, c) != MainAt(ps, pb, c) ==>
        exists k :: 0 <= k < |nbs| && ColorAt(ps, pb, nbs[k]) == color && MainAt(ps, pb, nbs[k]) == MainAt(ps, pb, c)
    {
      GatherMains(ps, pb, nbs, color, end, b, MainAt(ps, pb, c));
      StoneEffect(ps, pb, end, index, color, nbs, b, c, g, ps2, pb2, end2);
    }
    forall k | 0 <= k < |nbs| && ColorAt(ps2, pb2, nbs[k]) == color
      ensures MainAt(ps2, pb2, nbs[k]) == MainAt(ps2, pb2, index)
    {
      if nbs[k] != index {
        StoneEffect(ps, pb, end, index, color, nbs, b, nbs[k], g, ps2, pb2, end2);
        GatherMains(ps, pb, nbs, color, end, b, MainAt(ps, pb, nbs[k]));
      }
    }
  }

  /** When a neighbour has the stone's colour, the stone joins at least one group. */
  lemma RoomForPath(ps: seq<PathInfo>, pb: seq<int>, end: int, nbs: seq<int>, color: Color, b: (bool, bool), n: int)
    requires BoardWellFormed(ps, pb, end) && color != NoColor
    requires forall k :: 0 <= k < |nbs| ==> 0 <= nbs[k] < |pb|
    requires end < n || exists k :: 0 <= k < |nbs| && ColorAt(ps, pb, nbs[k]) == color
    ensures Gather(ps, pb, nbs, color, end, b).mains == {} ==> end < n
  {
    if exists k :: 0 <= k < |nbs| && ColorAt(ps, pb, nbs[k]) == color {
      var k :| 0 <= k < |nbs| && ColorAt(ps, pb, nbs[k]) == color;
      GatherMains(ps, pb, nbs, color, end, b, MainAt(ps, pb, nbs[k]));
    }
  }

  lemma SmallSquare(size: nat)
    ensures size < 2 ==> size * size == size
  {
  }

  /** Only on a one-cell board can a single stone touch both of its colour's borders. */
  lemma SingleStoneBorders(size: nat, index: int, color: Color)
    requires size >= 2 && 0 <= index < size * size
    ensures !(BorderConnection(size, index, color).0 && BorderConnection(size, index, color).1)
  {
  }

  /**
   * The whole new state after a stone of `color` on `index`: the groups of
   * its neighbours of that colour are gathered, the stone joins them under
   * the least main path (or opens path `end` when there are none), and its
   * colour wins exactly when the gathered borders are both touched.
   */
  ghost predicate StonePut(size: nat, ps: seq<PathInfo>, pb: seq<int>, end: int, index: int, color: Color,
                           ps2: seq<PathInfo>, pb2: seq<int>, end2: int, winner2: Color)
    requires size > 0 && |pb| == size * size && 0 <= index < |pb|
    requires BoardWellFormed(ps, pb, end) && color != NoColor
  {
    var g := Gather(ps, pb, Neighbours(size, index), color, end, BorderConnection(size, index, color));
    && g.least < |ps|
    && (g.mains == {} ==> end < |ps|)
    && (ps2, pb2, end2) == AfterStone(ps, pb, end, index, color, g)
    && winner2 == (if g.border1 && g.border2 then color else NoColor)
  }

  /** The neighbour list of every cell, by index. */
  ghost predicate NeighbourTable(size: nat, table: seq<seq<int>>)
  {
    size > 0 && |table| == size * size && forall k :: 0 <= k < |table| ==> table[k] == Neighbours(size, k)
  }

  /** The path records a group of `color` touching both borders. */
  predicate Wins(p: PathInfo, color: Color)
  {
    p.border1 && p.border2 && p.color == color
  }

  /**
   * The play state kept alongside the path table: the empty cells counted,
   * at most one new path per stone, the last move on a stone (none before
   * the first move), and a winner only with a winning group.
   */
  ghost predicate Tracked(ps: seq<PathInfo>, pb: seq<int>, end: int, nbEmpty: int, last: Option<int>, winner: Color)
  {
    && |ps| == |pb|
    && BoardWellFormed(ps, pb, end)
    && nbEmpty == |EmptyCells(pb)|
    && end <= |pb| - nbEmpty + 1
    && (last.Some? ==> 0 <= last.value < |pb| && pb[last.value] != 0)
    && (last.None? ==> nbEmpty == |pb|)
    && (winner != NoColor ==> exists k :: 1 <= k < end && Wins(ps[k], winner))
  }

  /** The empty board: every cell on the empty path, nothing played, no winner. */
  lemma InitialTracked(ps: seq<PathInfo>, n: nat)
    requires |ps| == n > 0 && ps[0] == EmptyPath
    ensures Tracked(ps, seq(n, _ => 0), 1, n, None, NoColor)
  {
    AllEmpty(n);
  }

  /**
   * A stone on an empty cell before any winner keeps the play state, and
   * makes its colour the winner exactly when its group touches both
   * borders.
   */
  lemma StoneTracked(size: nat, ps: seq<PathInfo>, pb: seq<int>, end: int, nbEmpty: int, last: Option<int>,
                     index: int, color: Color, nbs: seq<int>, g: Gathered,
                     ps2: seq<PathInfo>, pb2: seq<int>, end2: int, winner2: Color)
    requires size > 0 && |pb| == size * size
    requires Tracked(ps, pb, end, nbEmpty, last, NoColor) && color != NoColor
    requires 0 <= index < |pb| && pb[index] == 0
    requires forall k :: 0 <= k < |nbs| ==> 0 <= nbs[k] < |pb|
    requires g == Gather(ps, pb, nbs, color, end, BorderConnection(size, index, color))
    requires g.mains == {} ==> end < |ps|
    requires (ps2, pb2, end2) == AfterStone(ps, pb, end, index, color, g)
    requires winner2 == if g.border1 && g.border2 then color else NoColor
    ensures Tracked(ps2, pb2, end2, nbEmpty - 1, Some(index), winner2)
  {
    var b := BorderConnection(size, index, color);
    StoneEffect(ps, pb, end, index, color, nbs, b, index, g, ps2, pb2, end2);
    FillOne(pb, index, g.least);
    if g.mains == {} {
      LoneStoneCannotWin(size, ps, pb, end, index, color, nbs);
    } else if g.border1 && g.border2 {
      assert ps2[pb2[index]].color == color;
      assert 1 <= g.least < end2 && Wins(ps2[g.least], color);
    }
  }

  /**
   * Everything a stone on an empty cell needs: room for a new path when it
   * joins no group, and afterwards the play state kept, with its colour
   * the winner exactly when its main path touches both borders.
   */
  lemma StonePlaced(size: nat, ps: seq<PathInfo>, pb: seq<int>, end: int, nbEmpty: int, last: Option<int>,
                    index: int, color: Color, nbs: seq<int>, b: (bool, bool), g: Gathered)
    requires size > 0 && |pb| == size * size
    requires Tracked(ps, pb, end, nbEmpty, last, NoColor) && color != NoColor
    requires 0 <= index < |pb| && pb[index] == 0
    requires nbs == Neighbours(size, index) && b == BorderConnection(size, index, color)
    requires g == Gather(ps, pb, nbs, color, end, b)
    requires end < |pb| || exists k :: 0 <= k < |nbs| && ColorAt(ps, pb, nbs[k]) == color
    ensures g.mains == {} ==> end < |ps|
    ensures var after := AfterStone(ps, pb, end, index, color, g);
            && (g.mains != {} && after.0[g.least].border1 && after.0[g.least].border2 <==> g.border1 && g.border2)
            && Tracked(after.0, after.1, after.2, nbEmpty - 1, Some(index), if g.border1 && g.border2 then color else NoColor)
  {
    RoomForPath(ps, pb, end, nbs, color, b, |pb|);
    LoneStoneCannotWin(size, ps, pb, end, index, color, nbs);
    var after := AfterStone(ps, pb, end, index, color, g);
    StoneEffect(ps, pb, end, index, color, nbs, b, index, g, after.0, after.1, after.2);
    StoneTracked(size, ps, pb, end, nbEmpty, last, index, color, nbs, g,
                 after.0, after.1, after.2, if g.border1 && g.border2 then color else NoColor);
  }

  /** A stone that joins no group does not win on its own: there is room for its path only on a board of several cells. */
  lemma LoneStoneCannotWin(size: nat, ps: seq<PathInfo>, pb: seq<int>, end: int, index: int, color: Color, nbs: seq<int>)
    requires size > 0 && |ps| == size * size && 0 <= index < |ps|
    requires BoardWellFormed(ps, pb, end) && color != NoColor
    requires forall k :: 0 <= k < |nbs| ==> 0 <= nbs[k] < |pb|
    requires Gather(ps, pb, nbs, color, end, BorderConnection(size, index, color)).mains == {} ==> end < |ps|
    ensures var g := Gather(ps, pb, nbs, color, end, BorderConnection(size, index, color));
            g.mains == {} ==> !(g.border1 && g.border2)
  {
    GatherSpec(ps, pb, nbs, color, end, BorderConnection(size, index, color));
    if Gather(ps, pb, nbs, color, end, BorderConnection(size, index, color)).mains == {} {
      SmallSquare(size);
      SingleStoneBorders(size, index, color);
    }
  }

  /** A corner's neighbours, in order: the top-left cell touches the cell to its right and the one below. */
  lemma TopLeftNeighbours(size: nat)
    requires size >= 2
    ensures Neighbours(size, 0) == [1, size]
  {
    assert IndexToCell(size, 0) == (0, 0);
    var tail: seq<(int, int)> := [(1, -1), (1, 0)];
    assert ValidIndices(size, tail[1..]) == [size];
    assert ValidIndices(size, tail) == [size];
    var cells := Around(0, 0);
    assert cells[3..] == [(0, 1)] + tail;
    assert ValidIndices(size, cells[3..]) == [1, size];
    assert cells[2..][1..] == cells[3..] && cells[1..][1..] == cells[2..];
    assert ValidIndices(size, cells[2..]) == [1, size];
    assert ValidIndices(size, cells[1..]) == [1, size];
  }

  /** A valid cell's index is among the neighbours exactly when the cell is among the candidates. */
  lemma {:induction false} ValidIndicesHas(size: nat, cells: seq<(int, int)>, cell: (int, int))
    requires size > 0 && IsValidCell(size, cell)
    ensures CellToIndex(size, cell) in ValidIndices(size, cells) <==> cell in cells
  {
    if |cells| > 0 {
      ValidIndicesHas(size, cells[1..], cell);
      CellIndexInverse(size, 0, cell);
      CellIndexInverse(size, 0, cells[0]);
      assert cells == [cells[0]] + cells[1..];
    }
  }

  /** Adjacency is symmetric: each of two cells is in the other's neighbour list. */
  lemma NeighbourSymmetric(size: nat, a: (int, int), b: (int, int))
    requires size > 0 && IsValidCell(size, a) && IsValidCell(size, b)
    ensures CellToIndex(size, b) in Neighbours(size, CellToIndex(size, a)) <==>
            CellToIndex(size, a) in Neighbours(size, CellToIndex(size, b))
  {
    CellIndexInverse(size, 0, a);
    CellIndexInverse(size, 0, b);
    ValidIndicesHas(size, Around(a.0, a.1), b);
    ValidIndicesHas(size, Around(b.0, b.1), a);
  }

  /** The two colours belong to different players, and taking the pie swaps who owns each. */
  lemma PlayersDistinct(color: Color, hasPie: bool)
    requires color != NoColor
    ensures ColorToPlayer(Opponent(color), hasPie) != ColorToPlayer(color, hasPie)
    ensures ColorToPlayer(color, !hasPie) == ColorToPlayer(Opponent(color), hasPie)
  {
  }

  class Board {
    const size: nat
    const pie: bool
    const neighboursBoard: array<seq<int>>
    const paths: array<PathInfo>
    const pathBoard: array<int>
    var nbFullIndices: int
    var nbIndices: int
    var nbEmptyIndices: int
    var currentColor: Color
    var winnerColor: Color
    var hasPie: bool
    var lastIndex: Option<int>
    var pathsEnd: int

    ghost predicate Valid()
      reads this, neighboursBoard, paths, pathBoard
    {
      && size > 0
      && nbFullIndices == size * size && nbIndices == nbFullIndices
      && neighboursBoard.Length == nbFullIndices && paths.Length == nbFullIndices && pathBoard.Length == nbFullIndices
      && NeighbourTable(size, neighboursBoard[..])
      && currentColor != NoColor
      && Tracked(paths[..], pathBoard[..], pathsEnd, nbEmptyIndices, lastIndex, winnerColor)
    }

    /** The colour of the stone on a cell, NoColor when it is empty. */
    function CellColor(c: int): Color
      reads this, neighboursBoard, paths, pathBoard
      requires Valid() && 0 <= c < nbFullIndices
    {
      ColorAt(paths[..], pathBoard[..], c)
    }

    /** The main path of the group the stone on a cell belongs to. */
    function Main(c: int): int
      reads this, neighboursBoard, paths, pathBoard
      requires Valid() && 0 <= c < nbFullIndices
    {
      MainAt(paths[..], pathBoard[..], c)
    }

    constructor(size: nat, pie: bool)
      requires size > 0
      ensures Valid() && this.size == size && this.pie == pie
      ensures nbEmptyIndices == size * size && currentColor == Black && winnerColor == NoColor
      ensures lastIndex == None && !hasPie && pathsEnd == 1
    {
      this.size := size;
      this.pie := pie;
      neighboursBoard := new seq<int>[size * size];
      paths := new PathInfo[size * size](_ => EmptyPath);
      pathBoard := new int[size * size];
      new;
      Reset();
    }

    /**
     * An empty board: every cell on the empty path 0, Black to move, no
     * winner, no last move, and the neighbour table filled.
     */
    method Reset()
      requires size > 0
      requires neighboursBoard.Length == size * size && paths.Length == size * size && pathBoard.Length == size * size
      modifies this, neighboursBoard, paths, pathBoard
      ensures Valid()
      ensures nbEmptyIndices == size * size && currentColor == Black && winnerColor == NoColor
      ensures lastIndex == None && !hasPie && pathsEnd == 1
      ensures forall c :: 0 <= c < nbFullIndices ==> pathBoard[c] == 0
    {
      FillNeighbours();
      ClearPathBoard();
      paths[0] := EmptyPath;
      pathsEnd := 1;
      InitialTracked(paths[..], size * size);
      nbFullIndices := size * size;
      nbIndices := nbFullIndices;
      nbEmptyIndices := nbIndices;
      currentColor := Black;
      winnerColor := NoColor;
      hasPie := false;
      lastIndex := None;
    }

    /** Every cell back on the empty path 0. */
    method ClearPathBoard()
      modifies pathBoard
      ensures pathBoard[..] == seq(pathBoard.Length, _ => 0)
    {
      var c := 0;
      while c < pathBoard.Length
        invariant 0 <= c <= pathBoard.Length
        invariant forall k :: 0 <= k < c ==> pathBoard[k] == 0
      {
        pathBoard[c] := 0;
        c := c + 1;
      }
    }

    /** The neighbour table, row by row. */
    method FillNeighbours()
      requires size > 0 && neighboursBoard.Length == size * size
      modifies neighboursBoard
      ensures NeighbourTable(size, neighboursBoard[..])
    {
      var index := 0;
      for i := 0 to size
        invariant index == i * size && index <= size * size
        invariant forall k :: 0 <= k < index ==> neighboursBoard[k] == Neighbours(size, k)
      {
        for j := 0 to size
          invariant index == i * size + j && index <= size * size
          invariant forall k :: 0 <= k < index ==> neighboursBoard[k] == Neighbours(size, k)
        {
          NeighboursOfCell(size, i, j);
          neighboursBoard[index] := ValidIndices(size, Around(i, j));
          index := index + 1;
        }
        NextRow(size, i);
      }
      assert forall k :: 0 <= k < size * size ==> neighboursBoard[..][k] == neighboursBoard[k];
    }

    /**
     * A move. Replaying the last stone while the pie rule allows it takes
     * the pie and changes nothing else; otherwise a stone of the current
     * colour goes on the empty cell, joins the groups of its neighbours of
     * that colour, and the turn passes. The path table must have room for a
     * new path when the stone joins no group.
     */
    method Play(index: int)
      requires Valid() && IsValidIndex(index) && !IsGameFinished()
      requires lastIndex == Some(index) ==> CanPie()
      requires lastIndex != Some(index) ==> pathBoard[index] == 0
      requires lastIndex != Some(index) ==>
        pathsEnd < nbFullIndices ||
        exists k :: 0 <= k < |Neighbours(size, index)| && CellColor(Neighbours(size, index)[k]) == currentColor
      modifies this, paths, pathBoard
      ensures Valid()
      ensures old(lastIndex) == Some(index) ==>
        hasPie && pathsEnd == old(pathsEnd) && nbEmptyIndices == old(nbEmptyIndices) && lastIndex == old(lastIndex) &&
        currentColor == old(currentColor) && winnerColor == old(winnerColor) &&
        paths[..] == old(paths[..]) && pathBoard[..] == old(pathBoard[..])
      ensures old(lastIndex) != Some(index) ==>
        && hasPie == old(hasPie)
        && nbEmptyIndices == old(nbEmptyIndices) - 1 && lastIndex == Some(index) && currentColor == Opponent(old(currentColor))
        && StonePut(size, old(paths[..]), old(pathBoard[..]), old(pathsEnd), index, old(currentColor),
                    paths[..], pathBoard[..], pathsEnd, winnerColor)
        && StoneJoined(old(paths[..]), old(pathBoard[..]), paths[..], pathBoard[..], index, old(currentColor), Neighbours(size, index))
        && (winnerColor != NoColor <==> paths[Main(index)].border1 && paths[Main(index)].border2)
        && (winnerColor != NoColor ==> winnerColor == old(currentColor))
    {
      if lastIndex == Some(index) {
        hasPie := true;
      } else {
        ghost var ps, pb, end, color := paths[..], pathBoard[..], pathsEnd, currentColor;
        ghost var b := BorderConnection(size, index, color);
        PlaceStone(index);
        assert StonePut(size, ps, pb, end, index, color, paths[..], pathBoard[..], pathsEnd, winnerColor);
        StoneJoins(ps, pb, end, index, color, Neighbours(size, index), b);
      }
    }

    /** The stone branch of a move: the board after the stone, then the turn passes. */
    method PlaceStone(index: int)
      requires Valid() && IsValidIndex(index) && !IsGameFinished() && pathBoard[index] == 0
      requires pathsEnd < nbFullIndices ||
        exists k :: 0 <= k < |Neighbours(size, index)| && CellColor(Neighbours(size, index)[k]) == currentColor
      modifies this`pathsEnd, this`winnerColor, this`nbEmptyIndices, this`lastIndex, this`currentColor, paths, pathBoard
      ensures Valid()
      ensures var g := Gather(old(paths[..]), old(pathBoard[..]), Neighbours(size, index), old(currentColor), old(pathsEnd),
                              BorderConnection(size, index, old(currentColor)));
              && (g.mains == {} ==> old(pathsEnd) < paths.Length)
              && (paths[..], pathBoard[..], pathsEnd) == AfterStone(old(paths[..]), old(pathBoard[..]), old(pathsEnd), index, old(currentColor), g)
              && winnerColor == (if g.border1 && g.border2 then old(currentColor) else NoColor)
      ensures nbEmptyIndices == old(nbEmptyIndices) - 1 && lastIndex == Some(index) && currentColor == Opponent(old(currentColor))
    {
      var color := currentColor;
      var b := BorderConnection(size, index, color);
      var g := CollectNeighbours(index, b);
      ghost var ps, pb, end := paths[..], pathBoard[..], pathsEnd;
      ghost var nbEmpty, last := nbEmptyIndices, lastIndex;
      StonePlaced(size, ps, pb, end, nbEmpty, last, index, color, Neighbours(size, index), b, g);
      ghost var after := AfterStone(ps, pb, end, index, color, g);
      nbEmptyIndices := nbEmptyIndices - 1;
      lastIndex := Some(index);
      currentColor := Opponent(color);
      SetStone(index, color, g);
      assert (paths[..], pathBoard[..], pathsEnd) == after;
    }

    /**
     * The stone's path: a new one when it joins no group, otherwise the
     * groups joined under the smallest main path, which may make its colour
     * the winner.
     */
    method SetStone(index: int, color: Color, g: Gathered)
      requires paths.Length == pathBoard.Length && 0 <= index < pathBoard.Length && 0 <= pathsEnd
      requires g.mains == {} ==> g.least == pathsEnd < paths.Length
      requires g.mains != {} ==> 0 <= g.least < pathsEnd <= paths.Length
      modifies this`pathsEnd, this`winnerColor, paths, pathBoard
      ensures (paths[..], pathBoard[..], pathsEnd) == AfterStone(old(paths[..]), old(pathBoard[..]), old(pathsEnd), index, color, g)
      ensures winnerColor == if g.mains != {} && paths[g.least].border1 && paths[g.least].border2 then color else old(winnerColor)
    {
      ghost var after := AfterStone(paths[..], pathBoard[..], pathsEnd, index, color, g);
      var mainPathIndex := g.least;
      if g.mains == {} {
        NewPath(color, (g.border1, g.border2));
      } else {
        JoinPaths(g);
        if paths[mainPathIndex].border1 && paths[mainPathIndex].border2 {
          winnerColor := color;
        }
      }
      pathBoard[index] := mainPathIndex;
      assert pathBoard[..] == after.1;
    }

    /** The main paths of the neighbours of the current colour and the borders they reach. */
    method CollectNeighbours(index: int, b: (bool, bool)) returns (g: Gathered)
      requires Valid() && IsValidIndex(index)
      ensures g == Gather(paths[..], pathBoard[..], Neighbours(size, index), currentColor, pathsEnd, b)
    {
      var nbs := neighboursBoard[index];
      assert nbs == neighboursBoard[..][index];
      g := Gathered({}, b.0, b.1, pathsEnd);
      for i := 0 to |nbs|
        invariant g == Gather(paths[..], pathBoard[..], nbs[..i], currentColor, pathsEnd, b)
      {
        assert nbs[..i + 1][..i] == nbs[..i];
        var neighbourPathIndex := pathBoard[nbs[i]];
        if paths[neighbourPathIndex].color == currentColor {
          var neighbourMain := paths[neighbourPathIndex].mainPathIndex;
          var neighbourPath := paths[neighbourMain];
          g := g.(mains := g.mains + {neighbourMain},
                  border1 := g.border1 || neighbourPath.border1,
                  border2 := g.border2 || neighbourPath.border2,
                  least := Min(g.least, neighbourMain));
        }
      }
      assert nbs[..|nbs|] == nbs;
    }

    /** A stone joining no group starts a path of its own. */
    method NewPath(color: Color, b: (bool, bool))
      requires pathsEnd < paths.Length && pathsEnd >= 0
      modifies this`pathsEnd, paths
      ensures paths[..] == old(paths[..])[old(pathsEnd) := PathInfo(old(pathsEnd), color, b.0, b.1)]
      ensures pathsEnd == old(pathsEnd) + 1
    {
      paths[pathsEnd] := PathInfo(pathsEnd, color, b.0, b.1);
      pathsEnd := pathsEnd + 1;
    }

    /** The groups around a stone become one under the smallest of their main paths. */
    method JoinPaths(g: Gathered)
      requires 0 <= g.least < pathsEnd <= paths.Length
      modifies paths
      ensures paths[..] == Joined(old(paths[..]), g.least, g.mains, pathsEnd, g.border1, g.border2)
    {
      ghost var ps := paths[..];
      var m := g.least;
      paths[m] := paths[m].(border1 := paths[m].border1 || g.border1, border2 := paths[m].border2 || g.border2);
      var others := g.mains - {m};
      if others != {} {
        for k := m + 1 to pathsEnd
          invariant forall j :: 0 <= j < paths.Length ==>
            paths[j] == if j == m || (m < j < k && ps[j].mainPathIndex in others) then JoinedMain(ps, m, g.border1, g.border2) else ps[j]
        {
          if paths[k].mainPathIndex in others {
            paths[k] := paths[m];
          }
        }
      }
      forall j | 0 <= j < paths.Length
        ensures paths[j] == Joined(ps, m, g.mains, pathsEnd, g.border1, g.border2)[j]
      {
        assert ps[j].mainPathIndex in others <==> ps[j].mainPathIndex in g.mains && ps[j].mainPathIndex != m;
      }
      assert paths[..] == Joined(ps, m, g.mains, pathsEnd, g.border1, g.border2);
    }

    /** The legal moves: the empty cells in order, then the last move when the pie rule allows taking it. */
    method FindLegalIndices() returns (legal: seq<int>)
      requires Valid()
      ensures legal == EmptyCells(pathBoard[..]) + (if CanPie() then [lastIndex.value] else [])
      ensures |legal| == nbEmptyIndices + (if CanPie() then 1 else 0)
      ensures forall k :: 0 <= k < |legal| ==>
        0 <= legal[k] < nbFullIndices && (pathBoard[legal[k]] == 0 || (CanPie() && lastIndex == Some(legal[k])))
      ensures forall c :: 0 <= c < nbFullIndices && pathBoard[c] == 0 ==> c in legal
    {
      legal := [];
      for k := 0 to nbFullIndices
        invariant legal == EmptyCells(pathBoard[..k])
      {
        assert pathBoard[..k + 1][..k] == pathBoard[..k];
        if pathBoard[k] == 0 {
          legal := legal + [k];
        }
      }
      assert pathBoard[..nbFullIndices] == pathBoard[..];
      EmptyCellsAre(pathBoard[..]);
      if CanPie() {
        PieNeedsLastMove();
        legal := legal + [lastIndex.value];
      }
    }

    /** When the pie rule applies, there is a stone to take over. */
    lemma PieNeedsLastMove()
      requires Valid() && CanPie()
      ensures lastIndex.Some? && 0 <= lastIndex.value < nbFullIndices && pathBoard[lastIndex.value] != 0
    {
    }

    function CanPie(): bool
      reads this
    {
      pie && nbEmptyIndices == nbIndices - 1 && !hasPie
    }

    function IsGameFinished(): bool
      reads this
    {
      nbEmptyIndices == 0 || winnerColor != NoColor
    }

    function CurrentPlayer(): Player
      reads this
    {
      ColorToPlayer(currentColor, hasPie)
    }

    function WinnerPlayer(): Player
      reads this
    {
      ColorToPlayer(winnerColor, hasPie)
    }

    predicate IsValidIndex(index: int)
      reads this
    {
      0 <= index < nbFullIndices
    }
  }
}
