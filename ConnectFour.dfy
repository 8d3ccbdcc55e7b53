/**
 * Connect Four on the usual board of 7 columns and 6 rows. A move drops a
 * piece of the player to move into a column, on top of the pieces already
 * there; four pieces of one player in a line (across, up, or along either
 * diagonal) win, a full board without such a line is a tie.
 *
 * The board keeps cell (x, y) at index x + 7 * y, row 0 at the bottom, and
 * 0 for an empty cell, 1 and 2 for the pieces of player 0 and player 1.
 * The state hash is a 64-bit FNV-style hash of the cells played so far.
 */
module ConnectFour {
  import opened Bits

  const Width := 7
  const Height := 6
  const Cells := 42

  /** The FNV offset basis the hash starts from, and the FNV prime it is multiplied by. */
  const HashStart: nat := 2166136261
  const HashPrime: nat := 16777619
  const WordModulus: nat := 0x1_0000_0000_0000_0000

  datatype Status = Player0Turn | Player1Turn | Tie | Player0Win | Player1Win

  /** `getCurrentPlayer()`: 1 after a turn or win of player 1, 0 otherwise (ties included). */
  function CurrentPlayer(s: Status): (p: int)
    ensures p == 0 || p == 1
  {
    if s == Player1Turn || s == Player1Win then 1 else 0
  }

  function Index(x: int, y: int): int
  {
    x + 7 * y
  }

  predicate InBoard(x: int, y: int)
  {
    0 <= x < 7 && 0 <= y < 6
  }

  function CellAt(b: seq<int>, x: int, y: int): int
    requires |b| == Cells && InBoard(x, y)
  {
    b[Index(x, y)]
  }

  /** The cell (x, y) is on the board and holds a piece of p. */
  predicate Holds(b: seq<int>, x: int, y: int, p: int)
    requires |b| == Cells
  {
    InBoard(x, y) && CellAt(b, x, y) == p
  }

  /** One of the eight unit steps. */
  predicate IsStep(dx: int, dy: int)
  {
    -1 <= dx <= 1 && -1 <= dy <= 1 && (dx != 0 || dy != 0)
  }

  /** The coordinate reached from c after i unit steps of sign d. */
  function Offset(c: int, i: int, d: int): int
  {
    if d == 1 then c + i else if d == -1 then c - i else c
  }

  /** How many more steps of (dx, dy) stay on the board from (x, y). */
  function Reach(x: int, y: int, dx: int, dy: int): int
  {
    if dx == 1 then Width - x else if dx == -1 then x + 1
    else if dy == 1 then Height - y else y + 1
  }

  /** How many pieces of p follow (x, y) without a gap, going in the direction (dx, dy). */
  function RunLength(b: seq<int>, x: int, y: int, dx: int, dy: int, p: int): nat
    requires |b| == Cells && InBoard(x, y) && IsStep(dx, dy)
    decreases Reach(x, y, dx, dy)
  {
    if Holds(b, x + dx, y + dy, p) then 1 + RunLength(b, x + dx, y + dy, dx, dy, p) else 0
  }

  /** One step more from c is one step of d from c + d. */
  lemma OffsetShift(c: int, i: int, d: int)
    requires -1 <= d <= 1
    ensures Offset(c + d, i - 1, d) == Offset(c, i, d)
    ensures Offset(c, 1, d) == c + d
  {
  }

  /** The run is made of pieces of p. */
  lemma {:induction false} RunCells(b: seq<int>, x: int, y: int, dx: int, dy: int, p: int)
    requires |b| == Cells && InBoard(x, y) && IsStep(dx, dy)
    ensures forall i :: 1 <= i <= RunLength(b, x, y, dx, dy, p) ==> Holds(b, Offset(x, i, dx), Offset(y, i, dy), p)
    decreases Reach(x, y, dx, dy)
  {
    if Holds(b, x + dx, y + dy, p) {
      RunCells(b, x + dx, y + dy, dx, dy, p);
      forall i | 1 <= i <= RunLength(b, x, y, dx, dy, p)
        ensures Holds(b, Offset(x, i, dx), Offset(y, i, dy), p)
      {
        OffsetShift(x, i, dx);
        OffsetShift(y, i, dy);
      }
    }
  }

  /** The cell just after the run does not hold a piece of p. */
  lemma {:induction false} RunEnds(b: seq<int>, x: int, y: int, dx: int, dy: int, p: int)
    requires |b| == Cells && InBoard(x, y) && IsStep(dx, dy)
    ensures var r := RunLength(b, x, y, dx, dy, p); !Holds(b, Offset(x, r + 1, dx), Offset(y, r + 1, dy), p)
    decreases Reach(x, y, dx, dy)
  {
    var r := RunLength(b, x, y, dx, dy, p);
    if Holds(b, x + dx, y + dy, p) {
      var rest := RunLength(b, x + dx, y + dy, dx, dy, p);
      assert r == rest + 1;
      RunEnds(b, x + dx, y + dy, dx, dy, p);
      OffsetShift(x, r + 1, dx);
      OffsetShift(y, r + 1, dy);
      assert Offset(x, r + 1, dx) == Offset(x + dx, rest + 1, dx);
      assert Offset(y, r + 1, dy) == Offset(y + dy, rest + 1, dy);
    } else {
      assert r == 0;
      OffsetShift(x, 1, dx);
      OffsetShift(y, 1, dy);
    }
  }

  /** Whenever the k cells after (x, y) hold pieces of p, the run is at least k long. */
  lemma {:induction false} RunAtLeast(b: seq<int>, x: int, y: int, dx: int, dy: int, p: int, k: nat)
    requires |b| == Cells && InBoard(x, y) && IsStep(dx, dy)
    requires forall i :: 1 <= i <= k ==> Holds(b, Offset(x, i, dx), Offset(y, i, dy), p)
    ensures RunLength(b, x, y, dx, dy, p) >= k
    decreases k
  {
    if k > 0 {
      OffsetShift(x, 1, dx);
      OffsetShift(y, 1, dy);
      assert Holds(b, Offset(x, 1, dx), Offset(y, 1, dy), p);
      var x1, y1 := x + dx, y + dy;
      forall i | 1 <= i <= k - 1
        ensures Holds(b, Offset(x1, i, dx), Offset(y1, i, dy), p)
      {
        OffsetShift(x, i + 1, dx);
        OffsetShift(y, i + 1, dy);
        assert Holds(b, Offset(x, i + 1, dx), Offset(y, i + 1, dy), p);
      }
      RunAtLeast(b, x + dx, y + dy, dx, dy, p, k - 1);
    }
  }

  /** Four cells in a line, steps s .. s+3 from (x, y) in the direction (dx, dy), all hold pieces of p. */
  predicate Line(b: seq<int>, x: int, y: int, dx: int, dy: int, p: int, s: int)
    requires |b| == Cells
  {
    forall i :: s <= i < s + 4 ==> Holds(b, Offset(x, i, dx), Offset(y, i, dy), p)
  }

  /** Some four in a line of p's pieces passes through (x, y) in the direction (dx, dy). */
  predicate FourThrough(b: seq<int>, x: int, y: int, dx: int, dy: int, p: int)
    requires |b| == Cells
  {
    exists s :: -3 <= s <= 0 && Line(b, x, y, dx, dy, p, s)
  }

  /** What the move code tests: the runs on both sides of (x, y) add up to at least three. */
  predicate RunsWin(b: seq<int>, x: int, y: int, dx: int, dy: int, p: int)
    requires |b| == Cells && InBoard(x, y) && IsStep(dx, dy)
  {
    RunLength(b, x, y, -dx, -dy, p) + RunLength(b, x, y, dx, dy, p) >= 3
  }

  /** Runs adding up to three give four in a line. */
  lemma RunsGiveLine(b: seq<int>, x: int, y: int, dx: int, dy: int, p: int)
    requires |b| == Cells && InBoard(x, y) && IsStep(dx, dy) && CellAt(b, x, y) == p
    requires RunsWin(b, x, y, dx, dy, p)
    ensures FourThrough(b, x, y, dx, dy, p)
  {
    var ex, ey := -dx, -dy;
    var back: int, fwd: int := RunLength(b, x, y, ex, ey, p), RunLength(b, x, y, dx, dy, p);
    RunCells(b, x, y, ex, ey, p);
    RunCells(b, x, y, dx, dy, p);
    var s: int := if back >= 3 then -3 else -back;
    forall i | s <= i < s + 4
      ensures Holds(b, Offset(x, i, dx), Offset(y, i, dy), p)
    {
      if i < 0 {
        assert Offset(x, -i, ex) == Offset(x, i, dx) && Offset(y, -i, ey) == Offset(y, i, dy);
      }
    }
    assert Line(b, x, y, dx, dy, p, s);
  }

  /** Four in a line through a piece make runs adding up to three. */
  lemma LineGivesRuns(b: seq<int>, x: int, y: int, dx: int, dy: int, p: int)
    requires |b| == Cells && InBoard(x, y) && IsStep(dx, dy)
    requires FourThrough(b, x, y, dx, dy, p)
    ensures RunsWin(b, x, y, dx, dy, p)
  {
    var ex, ey := -dx, -dy;
    var s :| -3 <= s <= 0 && Line(b, x, y, dx, dy, p, s);
    forall j | 1 <= j <= -s
      ensures Holds(b, Offset(x, j, ex), Offset(y, j, ey), p)
    {
      assert Offset(x, j, ex) == Offset(x, -j, dx) && Offset(y, j, ey) == Offset(y, -j, dy);
    }
    RunAtLeast(b, x, y, ex, ey, p, -s);
    RunAtLeast(b, x, y, dx, dy, p, s + 3);
  }

  /** The count on both sides of a piece finds a win exactly when four in a line pass through it. */
  lemma RunsWinIff(b: seq<int>, x: int, y: int, dx: int, dy: int, p: int)
    requires |b| == Cells && InBoard(x, y) && IsStep(dx, dy) && CellAt(b, x, y) == p
    ensures RunsWin(b, x, y, dx, dy, p) <==> FourThrough(b, x, y, dx, dy, p)
  {
    if RunsWin(b, x, y, dx, dy, p) {
      RunsGiveLine(b, x, y, dx, dy, p);
    }
    if FourThrough(b, x, y, dx, dy, p) {
      LineGivesRuns(b, x, y, dx, dy, p);
    }
  }

  /** The four directions the move code tests: across, up, and the two diagonals. */
  predicate Wins(b: seq<int>, x: int, y: int, p: int)
    requires |b| == Cells && InBoard(x, y)
  {
    RunsWin(b, x, y, 1, 0, p) || RunsWin(b, x, y, 0, 1, p) ||
    RunsWin(b, x, y, 1, 1, p) || RunsWin(b, x, y, -1, 1, p)
  }

  /** A move wins exactly when it completes four in a line in one of the four directions. */
  lemma WinsIff(b: seq<int>, x: int, y: int, p: int)
    requires |b| == Cells && InBoard(x, y) && CellAt(b, x, y) == p
    ensures Wins(b, x, y, p) <==>
      FourThrough(b, x, y, 1, 0, p) || FourThrough(b, x, y, 0, 1, p) ||
      FourThrough(b, x, y, 1, 1, p) || FourThrough(b, x, y, -1, 1, p)
  {
    RunsWinIff(b, x, y, 1, 0, p);
    RunsWinIff(b, x, y, 0, 1, p);
    RunsWinIff(b, x, y, 1, 1, p);
    RunsWinIff(b, x, y, -1, 1, p);
  }

  /** The columns still open, in increasing order. */
  function LegalColumns(height: seq<int>, n: nat): (cols: seq<int>)
    requires n <= |height|
    ensures forall x :: x in cols <==> 0 <= x < n && height[x] != Height
    ensures forall i :: 0 <= i < |cols| ==> 0 <= cols[i] < n
    ensures forall i, j :: 0 <= i < j < |cols| ==> cols[i] < cols[j]
  {
    if n == 0 then []
    else
      var prefix := LegalColumns(height, n - 1);
      if height[n - 1] != Height then prefix + [n - 1] else prefix
  }

  /** No open column is left exactly when every column is filled to the top. */
  lemma NoLegalColumnIff(height: seq<int>)
    requires |height| == Width
    ensures LegalColumns(height, Width) == [] <==> forall x :: 0 <= x < Width ==> height[x] == Height
  {
    if LegalColumns(height, Width) != [] {
      assert LegalColumns(height, Width)[0] in LegalColumns(height, Width);
    }
  }

  /** One step of the hash: the cell index folded in, then the product by the FNV prime, on 64 bits. */
  function HashStep(h: nat, index: nat): (r: nat)
    ensures r < WordModulus
  {
    (Xor(h, index) * HashPrime) % WordModulus
  }

  /**
   * Gravity: in every column the pieces fill exactly the rows below its
   * height, and every cell is empty or holds a piece of one of the players.
   */
  ghost predicate Stacked(board: seq<int>, height: seq<int>)
  {
    |board| == Cells && |height| == Width &&
    (forall x :: 0 <= x < Width ==> 0 <= height[x] <= Height) &&
    (forall i :: 0 <= i < Cells ==> 0 <= board[i] <= 2) &&
    (forall x, y :: InBoard(x, y) ==> (CellAt(board, x, y) != 0 <==> y < height[x]))
  }

  /** A full board: every cell holds a piece. */
  lemma FullBoard(board: seq<int>, height: seq<int>)
    requires Stacked(board, height) && LegalColumns(height, Width) == []
    ensures forall x, y :: InBoard(x, y) ==> CellAt(board, x, y) != 0
  {
    NoLegalColumnIff(height);
  }

  /** Dropping a piece of player 1 or 2 on top of an open column keeps the columns stacked. */
  lemma StackedDrop(board: seq<int>, height: seq<int>, x: int, p: int)
    requires Stacked(board, height) && 0 <= x < Width && height[x] < Height && 1 <= p <= 2
    ensures Stacked(board[Index(x, height[x]) := p], height[x := height[x] + 1])
  {
    var b, h := board[Index(x, height[x]) := p], height[x := height[x] + 1];
    forall x', y' | InBoard(x', y')
      ensures CellAt(b, x', y') != 0 <==> y' < h[x']
    {
      if Index(x', y') == Index(x, height[x]) {
        assert x' == x && y' == height[x];
      }
    }
  }

  /** While no column is full, every column is open: on the empty board, all seven in order. */
  lemma {:induction false} AllOpen(height: seq<int>, n: nat)
    requires n <= |height| && forall x :: 0 <= x < n ==> height[x] != Height
    ensures LegalColumns(height, n) == seq(n, i => i)
  {
    if n > 0 {
      AllOpen(height, n - 1);
      assert LegalColumns(height, n) == LegalColumns(height, n - 1) + [n - 1];
      assert seq(n, i => i) == seq(n - 1, i => i) + [n - 1];
    }
  }

  /**
   * The status after p's piece lands on (x, y): a win for its owner when it
   * completes four in a line, else a tie when no column is open, else the
   * other player's turn.
   */
  function NextStatus(board: seq<int>, height: seq<int>, x: int, y: int, p: int): Status
    requires |board| == Cells && |height| == Width && InBoard(x, y)
  {
    if Wins(board, x, y, p) then (if p == 1 then Player0Win else Player1Win)
    else if LegalColumns(height, Width) == [] then Tie
    else if p == 1 then Player1Turn else Player0Turn
  }

  class StateForConnectFour {
    var board: seq<int>
    var height: seq<int>
    var status: Status
    var hash: nat
    var legalActions: seq<int>

    ghost predicate Valid()
      reads this
    {
      Stacked(board, height) && hash < WordModulus &&
      (status != Player0Win && status != Player1Win ==> legalActions == LegalColumns(height, Width)) &&
      (status == Tie ==> legalActions == [])
    }

    constructor()
      ensures Valid() && status == Player0Turn
      ensures board == seq(Cells, _ => 0) && height == seq(Width, _ => 0)
      ensures legalActions == [0, 1, 2, 3, 4, 5, 6]
    {
      new;
      Initialize();
    }

    /** `Initialize()`: an empty board, every height 0, player 0 to move and all seven columns open. */
    method Initialize()
      modifies this
      ensures Valid() && status == Player0Turn && hash == HashStart
      ensures board == seq(Cells, _ => 0) && height == seq(Width, _ => 0)
      ensures legalActions == [0, 1, 2, 3, 4, 5, 6]
    {
      hash := HashStart;
      status := Player0Turn;
      board := seq(Cells, _ => 0);
      height := seq(Width, _ => 0);
      FindActions();
      AllOpen(height, Width);
      assert seq(Width, i => i) == [0, 1, 2, 3, 4, 5, 6];
    }

    /** `findActions()`: the columns whose height is below the top, in increasing order. */
    method FindActions()
      requires |height| == Width
      modifies this`legalActions
      ensures legalActions == LegalColumns(height, Width)
    {
      legalActions := [];
      var i := 0;
      while i != Width
        invariant 0 <= i <= Width
        invariant legalActions == LegalColumns(height, i)
      {
        if height[i] != Height {
          legalActions := legalActions + [i];
        }
        i := i + 1;
      }
    }

    /** The `count` lambda of `ApplyAction`: the run of p's pieces after (x, y) in the direction (dx, dy). */
    method Count(x: int, y: int, dx: int, dy: int, p: int) returns (r: nat)
      requires |board| == Cells && InBoard(x, y) && IsStep(dx, dy)
      ensures r == RunLength(board, x, y, dx, dy, p)
    {
      var b := board;
      var nx, ny := x + dx, y + dy;
      r := 0;
      var stride := dx + 7 * dy;
      var nIndex := Index(x, y) + stride;
      ghost var cx, cy := x, y;
      while nx >= 0 && nx < 7 && ny >= 0 && ny < 6 && b[nIndex] == p
        invariant InBoard(cx, cy) && nx == cx + dx && ny == cy + dy && nIndex == Index(nx, ny)
        invariant RunLength(b, x, y, dx, dy, p) == r + RunLength(b, cx, cy, dx, dy, p)
        decreases RunLength(b, cx, cy, dx, dy, p)
      {
        r := r + 1;
        cx, cy := nx, ny;
        nIndex := nIndex + stride;
        nx := nx + dx;
        ny := ny + dy;
      }
    }

    /** The four tests of `ApplyAction`, run by run: does the piece at (x, y) complete four in a line? */
    method IsWin(x: int, y: int, p: int) returns (won: bool)
      requires |board| == Cells && InBoard(x, y)
      ensures won == Wins(board, x, y, p)
    {
      var a := Count(x, y, -1, 0, p);
      var b := Count(x, y, 1, 0, p);
      won := a + b >= 3;
      a := Count(x, y, 0, -1, p);
      b := Count(x, y, 0, 1, p);
      won := won || a + b >= 3;
      a := Count(x, y, -1, -1, p);
      b := Count(x, y, 1, 1, p);
      won := won || a + b >= 3;
      a := Count(x, y, 1, -1, p);
      b := Count(x, y, -1, 1, p);
      won := won || a + b >= 3;
    }

    /** The first steps of `ApplyAction`: the piece lands on its column and its key enters the hash. */
    method Drop(x: int, player: int)
      requires Stacked(board, height) && hash < WordModulus
      requires 0 <= x < Width && height[x] < Height && 1 <= player <= 2
      modifies this`board, this`height, this`hash
      ensures Stacked(board, height) && hash < WordModulus
      ensures board == old(board)[Index(x, old(height[x])) := player]
      ensures height == old(height)[x := old(height[x]) + 1]
      ensures hash == HashStep(old(hash), Index(x, old(height[x])))
    {
      var y := height[x];
      var index := Index(x, y);
      StackedDrop(board, height, x, player);
      board, height := board[index := player], height[x := y + 1];
      hash := HashStep(hash, index);
    }

    /**
     * The last steps of `ApplyAction`: a win for the player who moved to
     * (x, y), else a tie when no column is open, else the other player's
     * turn; the legal actions are recomputed unless the move won.
     */
    method Settle(x: int, y: int, player: int)
      requires |board| == Cells && |height| == Width && InBoard(x, y)
      modifies this`status, this`legalActions
      ensures status == NextStatus(board, height, x, y, player)
      ensures status != Player0Win && status != Player1Win ==> legalActions == LegalColumns(height, Width)
      ensures status == Tie ==> legalActions == []
      ensures status == Player0Win || status == Player1Win ==> legalActions == old(legalActions)
    {
      var won := IsWin(x, y, player);
      if won {
        status := if player == 1 then Player0Win else Player1Win;
      } else {
        FindActions();
        if legalActions == [] {
          status := Tie;
        } else {
          status := if player == 1 then Player1Turn else Player0Turn;
        }
      }
    }

    /**
     * `ApplyAction`: the mover's piece lands on top of column x, the hash
     * takes the cell in, and the state becomes a win for the mover when
     * the piece completes four in a line, else a tie when no column is
     * open, else the other player's turn. After a win the list of legal
     * actions is left as it was.
     */
    method ApplyAction(x: int)
      requires Valid() && 0 <= x < Width && height[x] < Height
      modifies this
      ensures Valid()
      ensures board == old(board)[Index(x, old(height[x])) := 1 + CurrentPlayer(old(status))]
      ensures height == old(height)[x := old(height[x]) + 1]
      ensures hash == HashStep(old(hash), Index(x, old(height[x])))
      ensures status == NextStatus(board, height, x, old(height[x]), 1 + CurrentPlayer(old(status)))
      ensures status == Player0Win || status == Player1Win ==> legalActions == old(legalActions)
    {
      var y := height[x];
      var player := 1 + CurrentPlayer(status);
      ghost var actions := legalActions;
      Drop(x, player);
      assert legalActions == actions;
      Settle(x, y, player);
    }
  }
}
