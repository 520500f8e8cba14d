/** The 3x3 board as a row-major sequence of nine cells, each 0 (empty),
    1 (the first player's mark) or -1 (the second player's mark), and the
    pure rules over it: which cells are empty, which lines are won, and the
    outcome that `State.winner` reports. */
module Board {

  import opened Options

  /** BOARD_ROWS and BOARD_COLS. */
  const Rows: nat := 3
  const Cols: nat := 3

  /** A row or column number; the board is square, so one range serves
      both. */
  type Coord = x: int | 0 <= x < Rows

  /** A board position `(i, j)`: row `i`, column `j`. */
  datatype Pos = Pos(row: Coord, col: Coord)

  /** Where position `p` sits in the row-major sequence of cells. */
  function Index(p: Pos): (k: nat)
    ensures k < 9
  {
    Cols * p.row + p.col
  }

  /** The position whose row-major index is `k`. */
  function PosAt(k: nat): (p: Pos)
    requires k < 9
    ensures Index(p) == k
  {
    Pos(k / Cols, k % Cols)
  }

  /** Nine cells, each empty or holding one of the two marks. */
  predicate IsBoard(c: seq<int>)
  {
    |c| == 9 && forall k :: 0 <= k < 9 ==> c[k] == 0 || c[k] == 1 || c[k] == -1
  }

  /** The board of a new game (`np.zeros`). */
  const EmptyBoard: seq<int> := [0, 0, 0, 0, 0, 0, 0, 0, 0]

  /** No cell is empty. */
  predicate Full(c: seq<int>)
    requires |c| == 9
  {
    forall k :: 0 <= k < 9 ==> c[k] != 0
  }

  /** The board after `symbol` is written into position `p`. */
  function AfterMove(c: seq<int>, p: Pos, symbol: int): (r: seq<int>)
    requires |c| == 9
    ensures |r| == 9 && r[Index(p)] == symbol
    ensures forall k :: 0 <= k < 9 && k != Index(p) ==> r[k] == c[k]
  {
    c[Index(p) := symbol]
  }

  /** The empty positions among the first `k` cells, in row-major order:
      the comprehension over `i` (outer) and `j` (inner) in
      `available_positions`, restricted to those cells. */
  function EmptyUpTo(c: seq<int>, k: nat): seq<Pos>
    requires |c| == 9 && k <= 9
  {
    if k == 0 then []
    else EmptyUpTo(c, k - 1) + (if c[k - 1] == 0 then [PosAt(k - 1)] else [])
  }

  /** `EmptyUpTo(c, k)` holds exactly the empty cells below index `k`, in
      strictly increasing row-major order. */
  lemma {:induction false} EmptyUpToSpec(c: seq<int>, k: nat)
    requires |c| == 9 && k <= 9
    ensures forall n :: 0 <= n < |EmptyUpTo(c, k)| ==>
      Index(EmptyUpTo(c, k)[n]) < k && c[Index(EmptyUpTo(c, k)[n])] == 0
    ensures forall j {:trigger PosAt(j)} :: 0 <= j < k && c[j] == 0 ==> PosAt(j) in EmptyUpTo(c, k)
    ensures forall m, n :: 0 <= m < n < |EmptyUpTo(c, k)| ==>
      Index(EmptyUpTo(c, k)[m]) < Index(EmptyUpTo(c, k)[n])
  {
    if k > 0 {
      EmptyUpToSpec(c, k - 1);
      var prev := EmptyUpTo(c, k - 1);
      var r := EmptyUpTo(c, k);
      assert forall n :: 0 <= n < |prev| ==> r[n] == prev[n];
      if c[k - 1] == 0 {
        assert r == prev + [PosAt(k - 1)] && r[|prev|] == PosAt(k - 1);
      }
    }
  }

  /** A board has no empty position exactly when it is full. */
  lemma EmptyUpToFull(c: seq<int>)
    requires |c| == 9
    ensures EmptyUpTo(c, |c|) == [] <==> Full(c)
  {
    EmptyUpToSpec(c, |c|);
    var r := EmptyUpTo(c, |c|);
    assert r != [] ==> c[Index(r[0])] == 0;
    if !Full(c) {
      var k :| 0 <= k < 9 && c[k] == 0;
      assert PosAt(k) in r;
    }
  }

  /** The empty positions of a board, each once, in row-major order. */
  function EmptyPositions(c: seq<int>): (r: seq<Pos>)
    requires |c| == 9
    ensures forall n :: 0 <= n < |r| ==> c[Index(r[n])] == 0
    ensures forall j {:trigger PosAt(j)} :: 0 <= j < 9 && c[j] == 0 ==> PosAt(j) in r
    ensures r == [] <==> Full(c)
  {
    EmptyUpToSpec(c, |c|);
    EmptyUpToFull(c);
    EmptyUpTo(c, |c|)
  }

  /** The positions are listed in strictly increasing row-major order, so
      each at most once. */
  lemma EmptyPositionsOrdered(c: seq<int>)
    requires |c| == 9
    ensures forall m, n :: 0 <= m < n < |EmptyPositions(c)| ==> Index(EmptyPositions(c)[m]) < Index(EmptyPositions(c)[n])
  {
    EmptyUpToSpec(c, |c|);
  }

  /** The row-major indices of the empty cells. */
  function EmptyCells(c: seq<int>): set<nat>
    requires |c| == 9
  {
    set k: nat | k < 9 && c[k] == 0
  }

  /** The number of empty cells. */
  function EmptyCount(c: seq<int>): nat
    requires |c| == 9
  {
    |EmptyCells(c)|
  }

  /** The empty cells below index `k`. */
  function EmptyCellsUpTo(c: seq<int>, k: nat): set<nat>
    requires |c| == 9 && k <= 9
  {
    set j: nat | j < k && c[j] == 0
  }

  lemma {:induction false} EmptyUpToCount(c: seq<int>, k: nat)
    requires |c| == 9 && k <= 9
    ensures |EmptyUpTo(c, k)| == |EmptyCellsUpTo(c, k)|
  {
    if k > 0 {
      EmptyUpToCount(c, k - 1);
      if c[k - 1] == 0 {
        assert EmptyCellsUpTo(c, k) == EmptyCellsUpTo(c, k - 1) + {k - 1};
      } else {
        assert EmptyCellsUpTo(c, k) == EmptyCellsUpTo(c, k - 1);
      }
    } else {
      assert EmptyCellsUpTo(c, k) == {};
    }
  }

  /** There is one empty position per empty cell. */
  lemma EmptyPositionsCount(c: seq<int>)
    requires |c| == 9
    ensures |EmptyPositions(c)| == EmptyCount(c)
  {
    EmptyUpToCount(c, |c|);
    assert EmptyCellsUpTo(c, |c|) == EmptyCells(c);
  }

  /** A board is full exactly when it has no empty cell. */
  lemma EmptyCountFull(c: seq<int>)
    requires |c| == 9
    ensures Full(c) <==> EmptyCount(c) == 0
  {
    if !Full(c) {
      var k :| 0 <= k < 9 && c[k] == 0;
      assert k in EmptyCells(c);
    }
  }

  /** A move into an empty cell leaves one empty cell fewer. */
  lemma EmptyCountAfterMove(c: seq<int>, p: Pos, symbol: int)
    requires |c| == 9 && c[Index(p)] == 0 && symbol != 0
    ensures EmptyCount(AfterMove(c, p, symbol)) == EmptyCount(c) - 1
  {
    assert EmptyCells(c) == EmptyCells(AfterMove(c, p, symbol)) + {Index(p)};
  }

  /** A line of the board: the row-major indices of its three cells. */
  datatype Line = Line(a: nat, b: nat, c: nat)

  predicate ValidLine(l: Line)
  {
    l.a < 9 && l.b < 9 && l.c < 9
  }

  function RowLine(i: Coord): Line { Line(3 * i, 3 * i + 1, 3 * i + 2) }
  function ColLine(j: Coord): Line { Line(j, j + 3, j + 6) }
  /** `board[i, i]` for i = 0, 1, 2. */
  const Diagonal: Line := Line(0, 4, 8)
  /** `board[i, BOARD_COLS - i - 1]` for i = 0, 1, 2. */
  const AntiDiagonal: Line := Line(2, 4, 6)

  /** The six lines scanned one by one, in the order `winner` scans them:
      rows 0, 1, 2, then columns 0, 1, 2. */
  function ScanLine(k: nat): (l: Line)
    requires k < 6
    ensures ValidLine(l)
  {
    if k < 3 then RowLine(k) else ColLine(k - 3)
  }

  /** All eight lines: the six scanned lines and the two diagonals. */
  const AllLines: seq<Line> := [RowLine(0), RowLine(1), RowLine(2),
                                ColLine(0), ColLine(1), ColLine(2),
                                Diagonal, AntiDiagonal]

  function LineSum(c: seq<int>, l: Line): int
    requires |c| == 9 && ValidLine(l)
  {
    c[l.a] + c[l.b] + c[l.c]
  }

  /** Every cell of line `l` holds `symbol`. */
  predicate Owns(c: seq<int>, l: Line, symbol: int)
    requires |c| == 9 && ValidLine(l)
  {
    c[l.a] == symbol && c[l.b] == symbol && c[l.c] == symbol
  }

  /** `symbol` owns one of the eight lines. */
  predicate HasLine(c: seq<int>, symbol: int)
    requires |c| == 9
  {
    exists n :: 0 <= n < 8 && ValidLine(AllLines[n]) && Owns(c, AllLines[n], symbol)
  }

  function Abs(x: int): int { if x < 0 then -x else x }
  function Max(x: int, y: int): int { if x < y then y else x }

  /** The row and column part of `winner`: scanning lines `k..5` in order,
      the sign of the first line whose sum is 3 or -3, or `None` when there
      is none. */
  function ScanFrom(c: seq<int>, k: nat): Option<int>
    requires |c| == 9 && k <= 6
    decreases 6 - k
  {
    if k == 6 then None
    else if LineSum(c, ScanLine(k)) == 3 then Some(1)
    else if LineSum(c, ScanLine(k)) == -3 then Some(-1)
    else ScanFrom(c, k + 1)
  }

  /** The scan finds nothing exactly when no line from `k` on sums to 3 or
      -3. */
  lemma {:induction false} ScanFromNone(c: seq<int>, k: nat)
    requires |c| == 9 && k <= 6
    ensures ScanFrom(c, k).None? <==>
      forall j :: k <= j < 6 ==> LineSum(c, ScanLine(j)) != 3 && LineSum(c, ScanLine(j)) != -3
    decreases 6 - k
  {
    if k < 6 {
      ScanFromNone(c, k + 1);
    }
  }

  /** What `winner` returns for the board `c`: 1 or -1 for a won line,
      0 for a full board without one, `None` while the game goes on. */
  function Judge(c: seq<int>): Option<int>
    requires |c| == 9
  {
    var scanned := ScanFrom(c, 0);
    if scanned.Some? then scanned
    else
      var d1 := LineSum(c, Diagonal);
      var d2 := LineSum(c, AntiDiagonal);
      if Max(Abs(d1), Abs(d2)) == 3 then
        if d1 == 3 || d2 == 3 then Some(1) else Some(-1)
      else if Full(c) then Some(0)
      else None
  }

  /** A new game starts undecided with all nine cells empty. */
  lemma EmptyBoardUndecided()
    ensures EmptyCount(EmptyBoard) == 9
    ensures Judge(EmptyBoard) == None
  {
    assert EmptyCells(EmptyBoard) == {0, 1, 2, 3, 4, 5, 6, 7, 8};
  }

  /** A game that `Judge` leaves undecided still has an empty cell. */
  lemma UndecidedHasEmpty(c: seq<int>)
    requires |c| == 9 && Judge(c).None?
    ensures !Full(c) && EmptyCount(c) > 0
  {
    EmptyCountFull(c);
  }

  /** With every cell in {-1, 0, 1}, a line sums to 3 (or -3) exactly when
      all three of its cells hold 1 (or -1). */
  lemma LineSumOwns(c: seq<int>, l: Line, symbol: int)
    requires IsBoard(c) && ValidLine(l) && (symbol == 1 || symbol == -1)
    ensures LineSum(c, l) == 3 * symbol <==> Owns(c, l, symbol)
  {
    assert c[l.a] == 0 || c[l.a] == 1 || c[l.a] == -1;
    assert c[l.b] == 0 || c[l.b] == 1 || c[l.b] == -1;
    assert c[l.c] == 0 || c[l.c] == 1 || c[l.c] == -1;
  }

  /** The eight lines, in `AllLines`, are the scanned lines and the diagonals. */
  lemma AllLinesAt(n: nat)
    requires n < 8
    ensures ValidLine(AllLines[n])
    ensures n < 6 ==> AllLines[n] == ScanLine(n)
    ensures n == 6 ==> AllLines[n] == Diagonal
    ensures n == 7 ==> AllLines[n] == AntiDiagonal
  {
  }

  /** A line of `AllLines` whose sum is `3 * symbol` is owned by `symbol`. */
  lemma SumGivesHasLine(c: seq<int>, n: nat, symbol: int)
    requires IsBoard(c) && n < 8 && (symbol == 1 || symbol == -1)
    ensures ValidLine(AllLines[n])
    ensures LineSum(c, AllLines[n]) == 3 * symbol ==> HasLine(c, symbol)
  {
    AllLinesAt(n);
    LineSumOwns(c, AllLines[n], symbol);
  }

  /** A mark is reported as the winner only when it owns a line. */
  lemma {:induction false} JudgeWinnerOwnsLine(c: seq<int>)
    requires IsBoard(c)
    ensures Judge(c) == Some(1) ==> HasLine(c, 1)
    ensures Judge(c) == Some(-1) ==> HasLine(c, -1)
    ensures Judge(c).Some? ==> Judge(c).value in {-1, 0, 1}
  {
    var scanned := ScanFrom(c, 0);
    if scanned.Some? {
      var s := scanned.value;
      var j :| 0 <= j < 6 && LineSum(c, ScanLine(j)) == 3 * s;
      AllLinesAt(j);
      SumGivesHasLine(c, j, s);
    } else {
      AllLinesAt(6);
      AllLinesAt(7);
      SumGivesHasLine(c, 6, 1);
      SumGivesHasLine(c, 7, 1);
      SumGivesHasLine(c, 6, -1);
      SumGivesHasLine(c, 7, -1);
    }
  }

  /** The game is over (the result is not `None`) exactly when a mark owns a
      line or the board is full; it is a draw (0) exactly when the board is
      full and no mark owns a line. */
  lemma {:induction false} JudgeTerminal(c: seq<int>)
    requires IsBoard(c)
    ensures Judge(c).Some? <==> HasLine(c, 1) || HasLine(c, -1) || Full(c)
    ensures Judge(c) == Some(0) <==> !HasLine(c, 1) && !HasLine(c, -1) && Full(c)
  {
    JudgeWinnerOwnsLine(c);
    if HasLine(c, 1) || HasLine(c, -1) {
      var s := if HasLine(c, 1) then 1 else -1;
      var n :| 0 <= n < 8 && ValidLine(AllLines[n]) && Owns(c, AllLines[n], s);
      AllLinesAt(n);
      LineSumOwns(c, AllLines[n], s);
      if ScanFrom(c, 0).None? {
        assert n >= 6;
        assert Max(Abs(LineSum(c, Diagonal)), Abs(LineSum(c, AntiDiagonal))) == 3;
      }
    }
  }

  /** When one mark owns no line, the other mark wins exactly when it owns
      a line: the only boards on which the scan order matters are boards
      where both marks own a line, which play never produces. */
  lemma {:induction false} JudgeSingleOwner(c: seq<int>, symbol: int)
    requires IsBoard(c) && (symbol == 1 || symbol == -1)
    requires !HasLine(c, -symbol)
    ensures Judge(c) == Some(symbol) <==> HasLine(c, symbol)
  {
    JudgeWinnerOwnsLine(c);
    if HasLine(c, symbol) {
      var n :| 0 <= n < 8 && ValidLine(AllLines[n]) && Owns(c, AllLines[n], symbol);
      AllLinesAt(n);
      LineSumOwns(c, AllLines[n], symbol);
      var scanned := ScanFrom(c, 0);
      if scanned.Some? {
        var j :| 0 <= j < 6 && LineSum(c, ScanLine(j)) == 3 * scanned.value;
        AllLinesAt(j);
        SumGivesHasLine(c, j, scanned.value);
      } else {
        assert n >= 6;
        AllLinesAt(6);
        AllLinesAt(7);
        SumGivesHasLine(c, 6, -symbol);
        SumGivesHasLine(c, 7, -symbol);
      }
    }
  }

  /** Rows are checked before columns, and both before the diagonals: when
      scanned line `m` is the first whose sum is 3 or -3, its sign is the
      result, whatever the later lines and the diagonals hold. */
  lemma {:induction false} JudgeScanOrder(c: seq<int>, m: nat)
    requires |c| == 9 && m < 6
    requires forall i :: 0 <= i < m ==> LineSum(c, ScanLine(i)) != 3 && LineSum(c, ScanLine(i)) != -3
    requires LineSum(c, ScanLine(m)) == 3 || LineSum(c, ScanLine(m)) == -3
    ensures Judge(c) == Some(if LineSum(c, ScanLine(m)) == 3 then 1 else -1)
  {
    ScanFromFirst(c, 0, m);
  }

  lemma {:induction false} ScanFromFirst(c: seq<int>, k: nat, m: nat)
    requires |c| == 9 && k <= m < 6
    requires forall i :: k <= i < m ==> LineSum(c, ScanLine(i)) != 3 && LineSum(c, ScanLine(i)) != -3
    requires LineSum(c, ScanLine(m)) == 3 || LineSum(c, ScanLine(m)) == -3
    ensures ScanFrom(c, k) == Some(if LineSum(c, ScanLine(m)) == 3 then 1 else -1)
    decreases m - k
  {
    if k < m {
      ScanFromFirst(c, k + 1, m);
    }
  }

}
