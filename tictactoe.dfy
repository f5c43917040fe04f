/**
 * Tic-tac-toe rules and the minimax player of tictactoe/tictactoe.py.
 *
 * A board is three rows of three cells; `Empty` stands for Python's `None`
 * (EMPTY). Actions are (row, column) pairs. The game value of a board is given
 * by the specification functions `MaxOutcome` and `MinOutcome`; the methods
 * `MaxValue`, `MinValue` and `Minimax` mirror the source's loops and are proved
 * to compute those values.
 */
module TicTacToe {
  import opened Wrappers
  import opened Folds

  datatype Cell = Empty | X | O

  /** A 3 x 3 board, indexed board[row][column]. */
  type Board = b: seq<seq<Cell>> | |b| == 3 && forall i | 0 <= i < 3 :: |b[i]| == 3
    witness [[Empty, Empty, Empty], [Empty, Empty, Empty], [Empty, Empty, Empty]]

  type Action = (int, int)

  /** The exception `result` raises for a row or column above 2, and Python's own for one below -3. */
  datatype Error = InvalidAction | IndexError

  /** initial_state: the empty board. */
  function InitialState(): (b: Board)
    ensures forall i, j | 0 <= i < 3 && 0 <= j < 3 :: b[i][j] == Empty
  {
    [[Empty, Empty, Empty], [Empty, Empty, Empty], [Empty, Empty, Empty]]
  }

  /** The number of cells of a row holding c. */
  function CountRow(row: seq<Cell>, c: Cell): nat
  {
    if row == [] then 0 else CountRow(row[..|row| - 1], c) + (if row[|row| - 1] == c then 1 else 0)
  }

  /** The number of cells of some rows holding c. */
  function CountRows(rows: seq<seq<Cell>>, c: Cell): nat
  {
    if rows == [] then 0 else CountRows(rows[..|rows| - 1], c) + CountRow(rows[|rows| - 1], c)
  }

  /** The number of cells of the board holding c. */
  function Count(board: Board, c: Cell): nat
  {
    CountRows(board, c)
  }

  /**
   * lookInBoard: the counts of empty cells, X's and O's, which the source keeps
   * in module globals, are returned instead.
   */
  method LookInBoard(board: Board) returns (emptyCount: nat, xCount: nat, oCount: nat)
    ensures emptyCount == Count(board, Empty) && xCount == Count(board, X) && oCount == Count(board, O)
    ensures emptyCount + xCount + oCount == 9
  {
    emptyCount, xCount, oCount := 0, 0, 0;
    for i := 0 to 3
      invariant emptyCount == CountRows(board[..i], Empty)
      invariant xCount == CountRows(board[..i], X)
      invariant oCount == CountRows(board[..i], O)
    {
      for j := 0 to 3
        invariant emptyCount == CountRows(board[..i], Empty) + CountRow(board[i][..j], Empty)
        invariant xCount == CountRows(board[..i], X) + CountRow(board[i][..j], X)
        invariant oCount == CountRows(board[..i], O) + CountRow(board[i][..j], O)
      {
        assert board[i][..j + 1][..j] == board[i][..j];
        if board[i][j] == Empty {
          emptyCount := emptyCount + 1;
        } else if board[i][j] == X {
          xCount := xCount + 1;
        } else if board[i][j] == O {
          oCount := oCount + 1;
        }
      }
      assert board[i][..3] == board[i];
      assert board[..i + 1][..i] == board[..i];
    }
    assert board[..3] == board;
    CountTotal(board);
  }

  /** Every cell is empty, an X or an O, so the three counts add up to 9. */
  lemma CountTotal(board: Board)
    ensures Count(board, Empty) + Count(board, X) + Count(board, O) == 9
  {
    RowsTotal(board);
  }

  lemma {:induction false} RowsTotal(rows: seq<seq<Cell>>)
    requires forall i | 0 <= i < |rows| :: |rows[i]| == 3
    ensures CountRows(rows, Empty) + CountRows(rows, X) + CountRows(rows, O) == 3 * |rows|
  {
    if rows != [] {
      RowsTotal(rows[..|rows| - 1]);
      RowTotal(rows[|rows| - 1]);
    }
  }

  lemma {:induction false} RowTotal(row: seq<Cell>)
    ensures CountRow(row, Empty) + CountRow(row, X) + CountRow(row, O) == |row|
  {
    if row != [] {
      RowTotal(row[..|row| - 1]);
    }
  }

  /** Rows in which no cell holds c count no c. */
  lemma {:induction false} RowsWithout(rows: seq<seq<Cell>>, c: Cell)
    requires forall i, j | 0 <= i < |rows| && 0 <= j < |rows[i]| :: rows[i][j] != c
    ensures CountRows(rows, c) == 0
  {
    if rows != [] {
      RowsWithout(rows[..|rows| - 1], c);
      RowWithout(rows[|rows| - 1], c);
    }
  }

  lemma {:induction false} RowWithout(row: seq<Cell>, c: Cell)
    requires forall j | 0 <= j < |row| :: row[j] != c
    ensures CountRow(row, c) == 0
  {
    if row != [] {
      RowWithout(row[..|row| - 1], c);
    }
  }

  /** player: None (Empty) on a full board, X when X's and O's are as many, O otherwise. */
  function Player(board: Board): Cell
  {
    if Count(board, Empty) != 0 then
      if Count(board, X) == Count(board, O) then X else O
    else
      Empty
  }

  /** The mark `result` writes: X when it is X's turn, O otherwise. */
  function Mark(board: Board): Cell
  {
    if Player(board) == X then X else O
  }

  /** The board with cell (row, col) set to c. */
  function Place(board: Board, row: int, col: int, c: Cell): (r: Board)
    requires 0 <= row < 3 && 0 <= col < 3
  {
    board[row := board[row][col := c]]
  }

  /** Python's indexing of a three-element list by -3 .. 2. */
  function Wrap(i: int): int
  {
    if i < 0 then i + 3 else i
  }

  /**
   * result: an action with a row or column above 2 raises InvalidAction;
   * otherwise the copy of the board gets the current player's mark (O when
   * the board is full) at (row, column), negative indices counting from the end
   * as Python's do, and below -3 indexing fails.
   */
  function Result(board: Board, action: Action): (r: Result<Board, Error>)
    ensures r == Failure(InvalidAction) <==> action.0 > 2 || action.1 > 2
    ensures r.Success? <==> -3 <= action.0 <= 2 && -3 <= action.1 <= 2
    ensures r.Success? ==> forall i, j | 0 <= i < 3 && 0 <= j < 3 ::
      r.value[i][j] == if i == Wrap(action.0) && j == Wrap(action.1) then Mark(board) else board[i][j]
  {
    if action.0 > 2 || action.1 > 2 then
      Failure(InvalidAction)
    else if action.0 < -3 || action.1 < -3 then
      Failure(IndexError)
    else
      Success(Place(board, Wrap(action.0), Wrap(action.1), Mark(board)))
  }

  /** A row or column index. */
  type Coord = i: int | 0 <= i < 3

  /** Three cells in a row, a column or a diagonal, named by row and column. */
  datatype Line = Line(r0: Coord, c0: Coord, r1: Coord, c1: Coord, r2: Coord, c2: Coord)

  const Rows: seq<Line> := [Line(0, 0, 0, 1, 0, 2), Line(1, 0, 1, 1, 1, 2), Line(2, 0, 2, 1, 2, 2)]
  const Columns: seq<Line> := [Line(0, 0, 1, 0, 2, 0), Line(0, 1, 1, 1, 2, 1), Line(0, 2, 1, 2, 2, 2)]
  const Diagonals: seq<Line> := [Line(0, 0, 1, 1, 2, 2), Line(0, 2, 1, 1, 2, 0)]

  /** The three cells of the line all hold c. */
  predicate Owns(board: Board, line: Line, c: Cell)
  {
    board[line.r0][line.c0] == c && board[line.r1][line.c1] == c && board[line.r2][line.c2] == c
  }

  /** Some row, column or diagonal holds three c's, c a mark. */
  predicate HasLine(board: Board, c: Cell)
  {
    c != Empty && exists line | line in Rows + Columns + Diagonals :: Owns(board, line, c)
  }

  /** Python's chained a == b == c != None. */
  predicate Same(a: Cell, b: Cell, c: Cell)
  {
    a == b && b == c && c != Empty
  }

  /** The mark of the first complete line of the list, tested in order; Empty when there is none. */
  function FirstComplete(board: Board, lines: seq<Line>): Cell
  {
    if lines == [] then Empty
    else
      var line := lines[0];
      if Same(board[line.r0][line.c0], board[line.r1][line.c1], board[line.r2][line.c2]) then board[line.r0][line.c0]
      else FirstComplete(board, lines[1..])
  }

  /**
   * winner: rows are tested first, then columns, then diagonals, each group
   * stopping at its first complete line and a later group's match overriding
   * the earlier ones; Empty when no line is complete.
   */
  function Winner(board: Board): Cell
  {
    var byRow := FirstComplete(board, Rows);
    var byColumn := FirstComplete(board, Columns);
    var byDiagonal := FirstComplete(board, Diagonals);
    if byDiagonal != Empty then byDiagonal
    else if byColumn != Empty then byColumn
    else byRow
  }

  /** The first complete line's mark, when there is one, owns a line of the list. */
  lemma {:induction false} FirstCompleteOwns(board: Board, lines: seq<Line>)
    requires FirstComplete(board, lines) != Empty
    ensures exists line | line in lines :: Owns(board, line, FirstComplete(board, lines))
  {
    var line := lines[0];
    if Same(board[line.r0][line.c0], board[line.r1][line.c1], board[line.r2][line.c2]) {
      assert Owns(board, line, FirstComplete(board, lines));
    } else {
      FirstCompleteOwns(board, lines[1..]);
      var other :| other in lines[1..] && Owns(board, other, FirstComplete(board, lines[1..]));
      assert other in lines;
    }
  }

  /** A list holding a line owned by a mark has a first complete line. */
  lemma {:induction false} FirstCompleteFinds(board: Board, lines: seq<Line>, line: Line, c: Cell)
    requires line in lines && c != Empty && Owns(board, line, c)
    ensures FirstComplete(board, lines) != Empty
  {
    var first := lines[0];
    if !Same(board[first.r0][first.c0], board[first.r1][first.c1], board[first.r2][first.c2]) {
      assert line != first;
      assert line in lines[1..];
      FirstCompleteFinds(board, lines[1..], line, c);
    }
  }

  /** The winner always owns a complete line, and a board with a complete line has a winner. */
  lemma WinnerSound(board: Board)
    ensures Winner(board) != Empty ==> HasLine(board, Winner(board))
    ensures HasLine(board, X) || HasLine(board, O) ==> Winner(board) != Empty
  {
    var all := Rows + Columns + Diagonals;
    if Winner(board) != Empty {
      var lines := if FirstComplete(board, Diagonals) != Empty then Diagonals
        else if FirstComplete(board, Columns) != Empty then Columns else Rows;
      FirstCompleteOwns(board, lines);
      var line :| line in lines && Owns(board, line, Winner(board));
      assert line in all;
    }
    if HasLine(board, X) || HasLine(board, O) {
      var c := if HasLine(board, X) then X else O;
      var line :| line in all && Owns(board, line, c);
      var lines := if line in Rows then Rows else if line in Columns then Columns else Diagonals;
      FirstCompleteFinds(board, lines, line, c);
    }
  }

  /** A board with a complete line has a winner, and it is that line's mark when the other mark has none. */
  lemma WinnerComplete(board: Board, c: Cell)
    requires HasLine(board, c)
    ensures Winner(board) != Empty
    ensures !HasLine(board, if c == X then O else X) ==> Winner(board) == c
  {
    WinnerSound(board);
  }

  /** The three cells of the line hold the same mark: the chained comparison of winner. */
  predicate Complete(board: Board, line: Line)
  {
    Same(board[line.r0][line.c0], board[line.r1][line.c1], board[line.r2][line.c2])
  }

  /** With no complete line before position k and one at k, the first complete line is line k. */
  lemma {:induction false} FirstCompleteAt(board: Board, lines: seq<Line>, k: nat)
    requires k < |lines| && Complete(board, lines[k])
    requires forall m | 0 <= m < k :: !Complete(board, lines[m])
    ensures FirstComplete(board, lines) == board[lines[k].r0][lines[k].c0]
  {
    if k > 0 {
      assert !Complete(board, lines[0]);
      FirstCompleteAt(board, lines[1..], k - 1);
    }
  }

  /** A list without a complete line has none to report. */
  lemma {:induction false} FirstCompleteNone(board: Board, lines: seq<Line>)
    requires forall m | 0 <= m < |lines| :: !Complete(board, lines[m])
    ensures FirstComplete(board, lines) == Empty
  {
    if lines != [] {
      assert !Complete(board, lines[0]);
      FirstCompleteNone(board, lines[1..]);
    }
  }

  /**
   * Lines owned by different marks share no cell, so they are both rows or
   * both columns: every row meets every column, and a diagonal meets every
   * other line.
   */
  lemma DifferentMarksParallel(board: Board, l: Line, m: Line, c: Cell, d: Cell)
    requires l in Rows + Columns + Diagonals && m in Rows + Columns + Diagonals
    requires c != d && Owns(board, l, c) && Owns(board, m, d)
    ensures (l in Rows && m in Rows) || (l in Columns && m in Columns)
  {
  }

  /**
   * When row i is the topmost complete row and a lower row is complete with
   * the other mark, no column or diagonal is complete, so row i's mark wins.
   */
  lemma UpperRowDecides(board: Board, i: nat, j: nat, c: Cell, d: Cell)
    requires i < j < 3 && c != d && c != Empty && d != Empty
    requires Owns(board, Rows[i], c) && Owns(board, Rows[j], d)
    requires forall k | 0 <= k < i :: !Complete(board, Rows[k])
    ensures Winner(board) == c
  {
    forall k | 0 <= k < 3 ensures !Complete(board, Columns[k]) {
      assert Columns[k] == Line(0, k, 1, k, 2, k) by {
        if k == 0 {} else if k == 1 {} else {}
      }
      assert board[i][k] == c && board[j][k] == d;
    }
    assert board[i][i] == c && board[j][j] == d;
    assert board[i][2 - i] == c && board[j][2 - j] == d;
    FirstCompleteNone(board, Columns);
    FirstCompleteNone(board, Diagonals);
    FirstCompleteAt(board, Rows, i);
  }

  /**
   * When column i is the leftmost complete column and a column to its right is
   * complete with the other mark, no diagonal is complete and the columns
   * override the rows, so column i's mark wins.
   */
  lemma LeftColumnDecides(board: Board, i: nat, j: nat, c: Cell, d: Cell)
    requires i < j < 3 && c != d && c != Empty && d != Empty
    requires Owns(board, Columns[i], c) && Owns(board, Columns[j], d)
    requires forall k | 0 <= k < i :: !Complete(board, Columns[k])
    ensures Winner(board) == c
  {
    assert board[i][i] == c && board[j][j] == d;
    assert board[2 - i][i] == c && board[2 - j][j] == d;
    FirstCompleteNone(board, Diagonals);
    FirstCompleteAt(board, Columns, i);
  }

  /**
   * A complete diagonal decides the game whatever the rows and columns hold:
   * both diagonals pass through the centre, so the first complete one has its
   * mark, and the diagonals override the other lines.
   */
  lemma DiagonalDecides(board: Board, k: nat, c: Cell)
    requires k < 2 && c != Empty && Owns(board, Diagonals[k], c)
    ensures Winner(board) == c
  {
    if Complete(board, Diagonals[0]) {
      FirstCompleteAt(board, Diagonals, 0);
    } else {
      FirstCompleteAt(board, Diagonals, 1);
    }
  }

  /** terminal: the board is full or someone has won. */
  function Terminal(board: Board): bool
  {
    Count(board, Empty) == 0 || Winner(board) == X || Winner(board) == O
  }

  /** A board is terminal exactly when it is full or some mark owns a complete line. */
  lemma TerminalLines(board: Board)
    ensures Terminal(board) <==> Count(board, Empty) == 0 || HasLine(board, X) || HasLine(board, O)
  {
    WinnerSound(board);
    if HasLine(board, X) {
      WinnerComplete(board, X);
    }
    if HasLine(board, O) {
      WinnerComplete(board, O);
    }
  }

  /** utility: 1 when X has won, -1 when O has won, 0 otherwise. */
  function Utility(board: Board): (r: int)
    ensures -1 <= r <= 1
    ensures r == 1 <==> Winner(board) == X
    ensures r == -1 <==> Winner(board) == O
  {
    var winner := Winner(board);
    if winner == X then 1
    else if winner == O then -1
    else 0
  }

  /** The legal actions: none on a terminal board, otherwise every empty cell. */
  function ActionSet(board: Board): set<Action>
  {
    if Terminal(board) then {}
    else set i, j | 0 <= i < 3 && 0 <= j < 3 && board[i][j] == Empty :: (i, j)
  }

  /** actions: the empty cells of a board that is not terminal, collected row by row. */
  method Actions(board: Board) returns (actions: set<Action>)
    ensures actions == ActionSet(board)
  {
    actions := {};
    if Terminal(board) == false {
      for i := 0 to 3
        invariant actions == set i', j | 0 <= i' < i && 0 <= j < 3 && board[i'][j] == Empty :: (i', j)
      {
        for j := 0 to 3
          invariant actions == (set i', j' | 0 <= i' < i && 0 <= j' < 3 && board[i'][j'] == Empty :: (i', j')) +
            (set j' | 0 <= j' < j && board[i][j'] == Empty :: (i, j'))
        {
          if board[i][j] == Empty {
            var action := (i, j);
            actions := actions + {action};
          }
        }
      }
    }
  }

  /** A board that is not terminal has a legal action; a terminal one has none. */
  lemma ActionsExist(board: Board)
    ensures ActionSet(board) == {} <==> Terminal(board)
    ensures forall a :: a in ActionSet(board) <==>
      !Terminal(board) && 0 <= a.0 < 3 && 0 <= a.1 < 3 && board[a.0][a.1] == Empty
  {
    if !Terminal(board) {
      var i, j := EmptyCell(board);
      assert (i, j) in ActionSet(board);
    }
  }

  /** A board with an empty cell shows where it is. */
  lemma EmptyCell(board: Board) returns (i: nat, j: nat)
    requires Count(board, Empty) > 0
    ensures i < 3 && j < 3 && board[i][j] == Empty
  {
    var r := RowsContain(board, Empty);
    i := r;
    j := RowContains(board[i], Empty);
  }

  lemma {:induction false} RowsContain(rows: seq<seq<Cell>>, c: Cell) returns (i: nat)
    requires CountRows(rows, c) > 0
    ensures i < |rows| && CountRow(rows[i], c) > 0
  {
    if CountRow(rows[|rows| - 1], c) > 0 {
      i := |rows| - 1;
    } else {
      i := RowsContain(rows[..|rows| - 1], c);
    }
  }

  lemma {:induction false} RowContains(row: seq<Cell>, c: Cell) returns (j: nat)
    requires CountRow(row, c) > 0
    ensures j < |row| && row[j] == c
  {
    if row[|row| - 1] == c {
      j := |row| - 1;
    } else {
      j := RowContains(row[..|row| - 1], c);
    }
  }

  /** The board after a legal action, which fills one empty cell. */
  function Play(board: Board, action: Action): (r: Board)
    requires action in ActionSet(board)
    ensures Count(r, Empty) == Count(board, Empty) - 1
  {
    ActionsExist(board);
    PlaceCounts(board, action.0, action.1, Mark(board), Empty);
    Place(board, action.0, action.1, Mark(board))
  }

  /** A legal action is accepted by `result`, which then plays it. */
  lemma ResultPlays(board: Board, action: Action)
    requires action in ActionSet(board)
    ensures Result(board, action) == Success(Play(board, action))
  {
    ActionsExist(board);
  }

  /** Overwriting one cell changes the counts by that cell only. */
  lemma {:induction false} RowUpdate(row: seq<Cell>, j: nat, v: Cell, c: Cell)
    requires j < |row|
    ensures CountRow(row[j := v], c) == CountRow(row, c) - (if row[j] == c then 1 else 0) + (if v == c then 1 else 0)
  {
    var last := |row| - 1;
    if j < last {
      RowUpdate(row[..last], j, v, c);
      assert row[j := v][..last] == row[..last][j := v];
    } else {
      assert row[j := v][..last] == row[..last];
    }
  }

  lemma {:induction false} RowsUpdate(rows: seq<seq<Cell>>, i: nat, r: seq<Cell>, c: Cell)
    requires i < |rows|
    ensures CountRows(rows[i := r], c) == CountRows(rows, c) - CountRow(rows[i], c) + CountRow(r, c)
  {
    var last := |rows| - 1;
    if i < last {
      RowsUpdate(rows[..last], i, r, c);
      assert rows[i := r][..last] == rows[..last][i := r];
    } else {
      assert rows[i := r][..last] == rows[..last];
    }
  }

  /** Placing a mark in an empty cell. */
  lemma PlaceCounts(board: Board, i: nat, j: nat, m: Cell, c: Cell)
    requires i < 3 && j < 3 && board[i][j] == Empty && m != Empty
    ensures Count(Place(board, i, j, m), c) ==
      Count(board, c) - (if c == Empty then 1 else 0) + (if c == m then 1 else 0)
  {
    RowUpdate(board[i], j, m, c);
    RowsUpdate(board, i, board[i][j := m], c);
  }

  /** X moves first, on a board with nine empty cells. */
  lemma InitialTurn()
    ensures Player(InitialState()) == X && !Terminal(InitialState())
    ensures Count(InitialState(), Empty) == 9
  {
    var b := InitialState();
    RowsWithout(b, X);
    RowsWithout(b, O);
    CountTotal(b);
  }

  /**
   * Turns alternate: on a board where X has as many marks as O or one more, a
   * legal action keeps it so, and the next player is the other one.
   */
  lemma PlayAlternates(board: Board, action: Action)
    requires action in ActionSet(board)
    requires Count(board, X) == Count(board, O) || Count(board, X) == Count(board, O) + 1
    ensures var next := Play(board, action);
      (Count(next, X) == Count(next, O) || Count(next, X) == Count(next, O) + 1) &&
      (Count(next, Empty) != 0 ==> Player(next) == if Player(board) == X then O else X)
  {
    ActionsExist(board);
    var m := Mark(board);
    PlaceCounts(board, action.0, action.1, m, Empty);
    PlaceCounts(board, action.0, action.1, m, X);
    PlaceCounts(board, action.0, action.1, m, O);
  }

  /** player returns None exactly on a full board. */
  lemma PlayerFull(board: Board)
    ensures Player(board) == Empty <==> forall i, j | 0 <= i < 3 && 0 <= j < 3 :: board[i][j] != Empty
  {
    if Count(board, Empty) > 0 {
      var i, j := EmptyCell(board);
    } else {
      forall i, j | 0 <= i < 3 && 0 <= j < 3 ensures board[i][j] != Empty {
        if board[i][j] == Empty {
          PlaceCounts(board, i, j, X, Empty);
        }
      }
    }
  }

  function Max(a: int, b: int): int
  {
    if a >= b then a else b
  }

  function Min(a: int, b: int): int
  {
    if a <= b then a else b
  }

  /** The game value with X to choose: the utility of a terminal board, otherwise the best reply value. */
  ghost function MaxOutcome(board: Board): int
    decreases Count(board, Empty), 2
  {
    if Terminal(board) then Utility(board) else Largest(MinReplies(board), ActionSet(board))
  }

  /** The game value with O to choose. */
  ghost function MinOutcome(board: Board): int
    decreases Count(board, Empty), 2
  {
    if Terminal(board) then Utility(board) else Smallest(MaxReplies(board), ActionSet(board))
  }

  /** The value of each legal action when the opponent then minimises. */
  ghost function MinReplies(board: Board): (replies: map<Action, int>)
    ensures replies.Keys == ActionSet(board)
    decreases Count(board, Empty), 1
  {
    map a | a in ActionSet(board) :: ReplyMin(board, a)
  }

  /** The value of a legal action when the opponent then minimises. */
  ghost function ReplyMin(board: Board, action: Action): int
    requires action in ActionSet(board)
    decreases Count(board, Empty), 0
  {
    MinOutcome(Play(board, action))
  }

  /** The value of each legal action when the opponent then maximises. */
  ghost function MaxReplies(board: Board): (replies: map<Action, int>)
    ensures replies.Keys == ActionSet(board)
    decreases Count(board, Empty), 1
  {
    map a | a in ActionSet(board) :: ReplyMax(board, a)
  }

  /** The value of a legal action when the opponent then maximises. */
  ghost function ReplyMax(board: Board, action: Action): int
    requires action in ActionSet(board)
    decreases Count(board, Empty), 0
  {
    MaxOutcome(Play(board, action))
  }

  /** The largest value over some keys, and -2 (the source's starting value) over none. */
  ghost function Largest<K>(values: map<K, int>, keys: set<K>): int
    requires keys <= values.Keys
  {
    if keys == {} then -2 else var k :| k in keys; Max(values[k], Largest(values, keys - {k}))
  }

  /** The smallest value over some keys, and 2 over none. */
  ghost function Smallest<K>(values: map<K, int>, keys: set<K>): int
    requires keys <= values.Keys
  {
    if keys == {} then 2 else var k :| k in keys; Min(values[k], Smallest(values, keys - {k}))
  }

  /** Any key may be taken out of the maximum first. */
  lemma {:induction false} LargestRemove<K>(values: map<K, int>, keys: set<K>, k: K)
    requires keys <= values.Keys && k in keys
    ensures Largest(values, keys) == Max(values[k], Largest(values, keys - {k}))
    decreases |keys|
  {
    var j :| j in keys && Largest(values, keys) == Max(values[j], Largest(values, keys - {j}));
    if j != k {
      LargestRemove(values, keys - {j}, k);
      LargestRemove(values, keys - {k}, j);
      assert keys - {j} - {k} == keys - {k} - {j};
      var rest := Largest(values, keys - {j} - {k});
      assert Max(values[j], Max(values[k], rest)) == Max(values[k], Max(values[j], rest));
    }
  }

  /** Any key may be taken out of the minimum first. */
  lemma {:induction false} SmallestRemove<K>(values: map<K, int>, keys: set<K>, k: K)
    requires keys <= values.Keys && k in keys
    ensures Smallest(values, keys) == Min(values[k], Smallest(values, keys - {k}))
    decreases |keys|
  {
    var j :| j in keys && Smallest(values, keys) == Min(values[j], Smallest(values, keys - {j}));
    if j != k {
      SmallestRemove(values, keys - {j}, k);
      SmallestRemove(values, keys - {k}, j);
      assert keys - {j} - {k} == keys - {k} - {j};
      var rest := Smallest(values, keys - {j} - {k});
      assert Min(values[j], Min(values[k], rest)) == Min(values[k], Min(values[j], rest));
    }
  }

  /** The largest value over the first n keys of a list, folded front to back from -2. */
  ghost function LargestIn<K>(values: map<K, int>, keys: seq<K>, n: nat): int
    requires n <= |keys| && forall i | 0 <= i < |keys| :: keys[i] in values
  {
    if n == 0 then -2 else Max(LargestIn(values, keys, n - 1), values[keys[n - 1]])
  }

  /** The smallest value over the first n keys of a list, folded front to back from 2. */
  ghost function SmallestIn<K>(values: map<K, int>, keys: seq<K>, n: nat): int
    requires n <= |keys| && forall i | 0 <= i < |keys| :: keys[i] in values
  {
    if n == 0 then 2 else Min(SmallestIn(values, keys, n - 1), values[keys[n - 1]])
  }

  /** Only the first n keys matter. */
  lemma {:induction false} LargestInSlice<K>(values: map<K, int>, keys: seq<K>, m: nat, n: nat)
    requires n <= m <= |keys| && forall i | 0 <= i < |keys| :: keys[i] in values
    ensures LargestIn(values, keys[..m], n) == LargestIn(values, keys, n)
  {
    if n > 0 {
      LargestInSlice(values, keys, m, n - 1);
    }
  }

  /** Only the first n keys matter. */
  lemma {:induction false} SmallestInSlice<K>(values: map<K, int>, keys: seq<K>, m: nat, n: nat)
    requires n <= m <= |keys| && forall i | 0 <= i < |keys| :: keys[i] in values
    ensures SmallestIn(values, keys[..m], n) == SmallestIn(values, keys, n)
  {
    if n > 0 {
      SmallestInSlice(values, keys, m, n - 1);
    }
  }

  /** Folding the keys in any order without repetition gives the maximum over the set. */
  lemma {:induction false} LargestInOrder<K>(values: map<K, int>, order: seq<K>, keys: set<K>)
    requires keys <= values.Keys && Distinct(order) && forall k :: k in order <==> k in keys
    ensures LargestIn(values, order, |order|) == Largest(values, keys)
  {
    if order == [] {
      assert keys == {};
    } else {
      var last := order[|order| - 1];
      var init := order[..|order| - 1];
      forall k ensures k in init <==> k in keys - {last} {
        if k in init {
          var j :| 0 <= j < |init| && init[j] == k;
          assert order[j] != last;
        }
      }
      LargestInOrder(values, init, keys - {last});
      LargestInSlice(values, order, |init|, |init|);
      LargestRemove(values, keys, last);
    }
  }

  /** Folding the keys in any order without repetition gives the minimum over the set. */
  lemma {:induction false} SmallestInOrder<K>(values: map<K, int>, order: seq<K>, keys: set<K>)
    requires keys <= values.Keys && Distinct(order) && forall k :: k in order <==> k in keys
    ensures SmallestIn(values, order, |order|) == Smallest(values, keys)
  {
    if order == [] {
      assert keys == {};
    } else {
      var last := order[|order| - 1];
      var init := order[..|order| - 1];
      forall k ensures k in init <==> k in keys - {last} {
        if k in init {
          var j :| 0 <= j < |init| && init[j] == k;
          assert order[j] != last;
        }
      }
      SmallestInOrder(values, init, keys - {last});
      SmallestInSlice(values, order, |init|, |init|);
      SmallestRemove(values, keys, last);
    }
  }

  /** A prefix folds to at most the whole list's maximum. */
  lemma {:induction false} LargestInPrefix<K>(values: map<K, int>, keys: seq<K>, n: nat)
    requires n <= |keys| && forall i | 0 <= i < |keys| :: keys[i] in values
    ensures LargestIn(values, keys, n) <= LargestIn(values, keys, |keys|)
    decreases |keys| - n
  {
    if n < |keys| {
      LargestInPrefix(values, keys, n + 1);
    }
  }

  /** A prefix folds to at least the whole list's minimum. */
  lemma {:induction false} SmallestInPrefix<K>(values: map<K, int>, keys: seq<K>, n: nat)
    requires n <= |keys| && forall i | 0 <= i < |keys| :: keys[i] in values
    ensures SmallestIn(values, keys, |keys|) <= SmallestIn(values, keys, n)
    decreases |keys| - n
  {
    if n < |keys| {
      SmallestInPrefix(values, keys, n + 1);
    }
  }

  /** Every one of the first n values is at most their fold. */
  lemma {:induction false} LargestInBounds<K>(values: map<K, int>, keys: seq<K>, n: nat)
    requires n <= |keys| && forall i | 0 <= i < |keys| :: keys[i] in values
    ensures forall m :: 0 <= m < n ==> values[keys[m]] <= LargestIn(values, keys, n)
  {
    if n > 0 {
      LargestInBounds(values, keys, n - 1);
    }
  }

  /** Every one of the first n values is at least their fold. */
  lemma {:induction false} SmallestInBounds<K>(values: map<K, int>, keys: seq<K>, n: nat)
    requires n <= |keys| && forall i | 0 <= i < |keys| :: keys[i] in values
    ensures forall m :: 0 <= m < n ==> SmallestIn(values, keys, n) <= values[keys[m]]
  {
    if n > 0 {
      SmallestInBounds(values, keys, n - 1);
    }
  }

  /** move is listed, and every key listed before it has a smaller value. */
  ghost predicate FirstAbove<K>(values: map<K, int>, order: seq<K>, move: K)
    requires forall i | 0 <= i < |order| :: order[i] in values
  {
    exists k :: 0 <= k < |order| && order[k] == move && forall m :: 0 <= m < k ==> values[order[m]] < values[move]
  }

  /** move is listed, and every key listed before it has a larger value. */
  ghost predicate FirstBelow<K>(values: map<K, int>, order: seq<K>, move: K)
    requires forall i | 0 <= i < |order| :: order[i] in values
  {
    exists k :: 0 <= k < |order| && order[k] == move && forall m :: 0 <= m < k ==> values[order[m]] > values[move]
  }

  /** A key whose value exceeds the fold of the keys before it is above all of them. */
  lemma FirstAboveAt<K>(values: map<K, int>, order: seq<K>, k: nat)
    requires k < |order| && forall i | 0 <= i < |order| :: order[i] in values
    requires LargestIn(values, order, k) < values[order[k]]
    ensures FirstAbove(values, order, order[k])
  {
    LargestInBounds(values, order, k);
  }

  /** A key whose value is below the fold of the keys before it is below all of them. */
  lemma FirstBelowAt<K>(values: map<K, int>, order: seq<K>, k: nat)
    requires k < |order| && forall i | 0 <= i < |order| :: order[i] in values
    requires values[order[k]] < SmallestIn(values, order, k)
    ensures FirstBelow(values, order, order[k])
  {
    SmallestInBounds(values, order, k);
  }

  /** Values at most hi, itself at least -2, have a maximum at most hi. */
  lemma {:induction false} LargestAtMost<K>(values: map<K, int>, keys: set<K>, hi: int)
    requires keys <= values.Keys && -2 <= hi
    requires forall k | k in keys :: values[k] <= hi
    ensures Largest(values, keys) <= hi
    decreases |keys|
  {
    if keys != {} {
      var k :| k in keys;
      LargestRemove(values, keys, k);
      LargestAtMost(values, keys - {k}, hi);
    }
  }

  /** Values at least lo, itself at most 2, have a minimum at least lo. */
  lemma {:induction false} SmallestAtLeast<K>(values: map<K, int>, keys: set<K>, lo: int)
    requires keys <= values.Keys && lo <= 2
    requires forall k | k in keys :: lo <= values[k]
    ensures lo <= Smallest(values, keys)
    decreases |keys|
  {
    if keys != {} {
      var k :| k in keys;
      SmallestRemove(values, keys, k);
      SmallestAtLeast(values, keys - {k}, lo);
    }
  }

  /** Over some keys, the maximum is the value of one of them. */
  lemma {:induction false} LargestAttained<K>(values: map<K, int>, keys: set<K>) returns (k: K)
    requires keys <= values.Keys && keys != {}
    requires forall j | j in keys :: -2 <= values[j]
    ensures k in keys && Largest(values, keys) == values[k]
    decreases |keys|
  {
    var j :| j in keys;
    LargestRemove(values, keys, j);
    if keys - {j} == {} || values[j] >= Largest(values, keys - {j}) {
      k := j;
    } else {
      k := LargestAttained(values, keys - {j});
    }
  }

  /** Over some keys, the minimum is the value of one of them. */
  lemma {:induction false} SmallestAttained<K>(values: map<K, int>, keys: set<K>) returns (k: K)
    requires keys <= values.Keys && keys != {}
    requires forall j | j in keys :: values[j] <= 2
    ensures k in keys && Smallest(values, keys) == values[k]
    decreases |keys|
  {
    var j :| j in keys;
    SmallestRemove(values, keys, j);
    if keys - {j} == {} || values[j] <= Smallest(values, keys - {j}) {
      k := j;
    } else {
      k := SmallestAttained(values, keys - {j});
    }
  }

  /** The value of a legal action lies in [-1, 1]. */
  lemma ReplyBounded(board: Board, action: Action)
    requires action in ActionSet(board)
    ensures -1 <= MinReplies(board)[action] <= 1 && -1 <= MaxReplies(board)[action] <= 1
  {
    OutcomeBounds(Play(board, action));
  }

  /** The value of a legal action for X lies in [-1, 1]. */
  lemma MinReplyBounded(board: Board, action: Action)
    requires action in ActionSet(board)
    ensures -1 <= MinReplies(board)[action] <= 1
  {
    ReplyBounded(board, action);
  }

  /** The value of a legal action for O lies in [-1, 1]. */
  lemma MaxReplyBounded(board: Board, action: Action)
    requires action in ActionSet(board)
    ensures -1 <= MaxReplies(board)[action] <= 1
  {
    ReplyBounded(board, action);
  }

  /** The best reply value is at most 1 for X and at least -1 for O. */
  lemma BestReplyBounded(board: Board)
    ensures Largest(MinReplies(board), ActionSet(board)) <= 1
    ensures -1 <= Smallest(MaxReplies(board), ActionSet(board))
  {
    forall a | a in ActionSet(board) ensures MinReplies(board)[a] <= 1 && -1 <= MaxReplies(board)[a] {
      ReplyBounded(board, a);
    }
    LargestAtMost(MinReplies(board), ActionSet(board), 1);
    SmallestAtLeast(MaxReplies(board), ActionSet(board), -1);
  }

  /** Game values lie in [-1, 1]. */
  lemma {:induction false} OutcomeBounds(board: Board)
    ensures -1 <= MaxOutcome(board) <= 1 && -1 <= MinOutcome(board) <= 1
    decreases Count(board, Empty)
  {
    if !Terminal(board) {
      var actions := ActionSet(board);
      ActionsExist(board);
      forall a | a in actions
        ensures -1 <= MinReplies(board)[a] <= 1 && -1 <= MaxReplies(board)[a] <= 1
      {
        OutcomeBounds(Play(board, a));
      }
      var hi := LargestAttained(MinReplies(board), actions);
      var lo := SmallestAttained(MaxReplies(board), actions);
    }
  }

  /**
   * maxValue: the utility of a terminal board, otherwise the largest minValue
   * over the actions, leaving the loop early once it reaches 1.
   */
  method MaxValue(board: Board) returns (value: int)
    ensures value == MaxOutcome(board)
    decreases Count(board, Empty), 3
  {
    if Terminal(board) {
      return Utility(board);
    }
    value := LargestReply(board);
  }

  /** The actions of maxValue's loop, in the order the set yields them. */
  method LargestReply(board: Board) returns (value: int)
    ensures value == Largest(MinReplies(board), ActionSet(board))
    decreases Count(board, Empty), 2
  {
    var actions := Actions(board);
    var order := Enumerate(actions);
    LargestInOrder(MinReplies(board), order, actions);
    BestReplyBounded(board);
    value := LargestOver(board, order);
  }

  /** The loop of maxValue: the largest minValue over the actions, stopping at 1. */
  method LargestOver(board: Board, order: seq<Action>) returns (value: int)
    requires forall i | 0 <= i < |order| :: order[i] in ActionSet(board)
    requires LargestIn(MinReplies(board), order, |order|) <= 1
    ensures value == LargestIn(MinReplies(board), order, |order|)
    decreases Count(board, Empty), 1
  {
    value := -2;
    ghost var replies := MinReplies(board);
    var i := 0;
    while i < |order|
      invariant i <= |order|
      invariant value == LargestIn(replies, order, i)
    {
      var reply := MinReply(board, order[i]);
      value := Max(value, reply);
      i := i + 1;
      if value == 1 {
        LargestInPrefix(replies, order, i);
        break;
      }
    }
  }

  /** minValue of the board after a legal action. */
  method MinReply(board: Board, action: Action) returns (reply: int)
    requires action in ActionSet(board)
    ensures reply == MinReplies(board)[action]
    decreases Count(board, Empty), 0
  {
    ResultPlays(board, action);
    reply := MinValue(Result(board, action).value);
  }

  /**
   * minValue: the utility of a terminal board, otherwise the smallest maxValue
   * over the actions, leaving the loop early once it reaches -1.
   */
  method MinValue(board: Board) returns (value: int)
    ensures value == MinOutcome(board)
    decreases Count(board, Empty), 3
  {
    if Terminal(board) {
      return Utility(board);
    }
    value := SmallestReply(board);
  }

  /** The actions of minValue's loop, in the order the set yields them. */
  method SmallestReply(board: Board) returns (value: int)
    ensures value == Smallest(MaxReplies(board), ActionSet(board))
    decreases Count(board, Empty), 2
  {
    var actions := Actions(board);
    var order := Enumerate(actions);
    SmallestInOrder(MaxReplies(board), order, actions);
    BestReplyBounded(board);
    value := SmallestOver(board, order);
  }

  /** The loop of minValue: the smallest maxValue over the actions, stopping at -1. */
  method SmallestOver(board: Board, order: seq<Action>) returns (value: int)
    requires forall i | 0 <= i < |order| :: order[i] in ActionSet(board)
    requires -1 <= SmallestIn(MaxReplies(board), order, |order|)
    ensures value == SmallestIn(MaxReplies(board), order, |order|)
    decreases Count(board, Empty), 1
  {
    value := 2;
    ghost var replies := MaxReplies(board);
    var i := 0;
    while i < |order|
      invariant i <= |order|
      invariant value == SmallestIn(replies, order, i)
    {
      var reply := MaxReply(board, order[i]);
      value := Min(value, reply);
      i := i + 1;
      if value == -1 {
        SmallestInPrefix(replies, order, i);
        break;
      }
    }
  }

  /** maxValue of the board after a legal action. */
  method MaxReply(board: Board, action: Action) returns (reply: int)
    requires action in ActionSet(board)
    ensures reply == MaxReplies(board)[action]
    decreases Count(board, Empty), 0
  {
    ResultPlays(board, action);
    reply := MaxValue(Result(board, action).value);
  }

  /**
   * minimax: no move on a terminal board; otherwise a legal action whose
   * resulting value is the best the player to move can force (the first one
   * reaching 1 for X or -1 for O, else the first with the best value).
   */
  method Minimax(board: Board) returns (move: Option<Action>)
    ensures move.None? <==> Terminal(board)
    ensures move.Some? ==> move.value in ActionSet(board)
    ensures move.Some? && Player(board) == X ==> MinOutcome(Play(board, move.value)) == MaxOutcome(board)
    ensures move.Some? && Player(board) != X ==> MaxOutcome(Play(board, move.value)) == MinOutcome(board)
  {
    ActionsExist(board);
    if Terminal(board) {
      return None;
    } else if Player(board) == X {
      var best := BestForX(board);
      return Some(best);
    } else {
      var best := BestForO(board);
      return Some(best);
    }
  }

  /** The `player(board) == X` branch of minimax. */
  method BestForX(board: Board) returns (move: Action)
    requires ActionSet(board) != {}
    ensures move in ActionSet(board)
    ensures MinReplies(board)[move] == Largest(MinReplies(board), ActionSet(board))
  {
    var actions := Actions(board);
    var order := Enumerate(actions);
    LargestInOrder(MinReplies(board), order, actions);
    BestReplyBounded(board);
    move := ScanForX(board, order);
  }

  /** The loop of the X branch: the first action worth 1, else the first of greatest value. */
  method ScanForX(board: Board, order: seq<Action>) returns (move: Action)
    requires |order| > 0 && forall i | 0 <= i < |order| :: order[i] in ActionSet(board)
    requires LargestIn(MinReplies(board), order, |order|) <= 1
    ensures move in order
    ensures MinReplies(board)[move] == LargestIn(MinReplies(board), order, |order|)
    ensures FirstAbove(MinReplies(board), order, move)
  {
    var bestValue := -2;
    var moves: seq<Action> := [];
    ghost var replies := MinReplies(board);
    ghost var at := 0;
    for i := 0 to |order|
      invariant bestValue == LargestIn(replies, order, i)
      invariant moves == [] <==> i == 0
      invariant moves != [] ==> |moves| == 1 && moves[0] in order && replies[moves[0]] == bestValue
      invariant at <= i && (moves != [] ==> at < i && order[at] == moves[0] && LargestIn(replies, order, at) < bestValue)
      invariant bestValue < 1
    {
      var action := order[i];
      var moveValue := MinReply(board, action);
      MinReplyBounded(board, action);
      if moveValue == 1 {
        LargestInPrefix(replies, order, i + 1);
        FirstAboveAt(replies, order, i);
        return action;
      } else if moveValue > bestValue {
        bestValue := moveValue;
        moves := [action];
        at := i;
      }
    }
    FirstAboveAt(replies, order, at);
    return moves[0];
  }

  /** The `player(board) == O` branch of minimax. */
  method BestForO(board: Board) returns (move: Action)
    requires ActionSet(board) != {}
    ensures move in ActionSet(board)
    ensures MaxReplies(board)[move] == Smallest(MaxReplies(board), ActionSet(board))
  {
    var actions := Actions(board);
    var order := Enumerate(actions);
    SmallestInOrder(MaxReplies(board), order, actions);
    BestReplyBounded(board);
    move := ScanForO(board, order);
  }

  /** The loop of the O branch: the first action worth -1, else the first of least value. */
  method ScanForO(board: Board, order: seq<Action>) returns (move: Action)
    requires |order| > 0 && forall i | 0 <= i < |order| :: order[i] in ActionSet(board)
    requires -1 <= SmallestIn(MaxReplies(board), order, |order|)
    ensures move in order
    ensures MaxReplies(board)[move] == SmallestIn(MaxReplies(board), order, |order|)
    ensures FirstBelow(MaxReplies(board), order, move)
  {
    var bestValue := 2;
    var moves: seq<Action> := [];
    ghost var replies := MaxReplies(board);
    ghost var at := 0;
    for i := 0 to |order|
      invariant bestValue == SmallestIn(replies, order, i)
      invariant moves == [] <==> i == 0
      invariant moves != [] ==> |moves| == 1 && moves[0] in order && replies[moves[0]] == bestValue
      invariant at <= i && (moves != [] ==> at < i && order[at] == moves[0] && SmallestIn(replies, order, at) > bestValue)
      invariant -1 < bestValue
    {
      var action := order[i];
      var moveValue := MaxReply(board, action);
      MaxReplyBounded(board, action);
      if moveValue == -1 {
        SmallestInPrefix(replies, order, i + 1);
        FirstBelowAt(replies, order, i);
        return action;
      } else if moveValue < bestValue {
        bestValue := moveValue;
        moves := [action];
        at := i;
      }
    }
    FirstBelowAt(replies, order, at);
    return moves[0];
  }
}
