/**
 * The tic-tac-toe engine as the object it is: a 3x3 board, the mover, the
 * legal moves, the winner, the winning line and the active flag, all fields
 * that `ExecuteAction` and `Reset` reassign. The board is a value: a move
 * replaces it with the board that has one more cell marked. Every public
 * method is proved to move the object's abstract value exactly as the
 * functions of module Rules say, so the game properties proved there hold
 * of the object.
 */
module Environment {
  import opened Optional
  import opened Board
  import opened Rules

  class TicTacToe {
    /** The board as rows of cells; a move replaces it with a copy that has one cell marked. */
    var board: Grid
    var turn: Mark
    var possibleActions: seq<Action>
    var winner: Option<Mark>
    var winPosition: Option<Line>
    var isActive: bool
    /** The starting mark after normalisation; `Reset` returns the turn to it. */
    const firstTurn: Mark

    /** The whole engine as a value of Rules.Game. */
    function Abstract(): Game
      reads this
    {
      Game(board, turn, possibleActions, winner, winPosition, isActive)
    }

    ghost predicate Valid()
      reads this
    {
      Consistent(Abstract())
    }

    /**
     * A new engine: the starting mark normalised, an empty board, all nine
     * moves legal, no winner, active.
     */
    constructor (first: FirstTurnArg)
      ensures Valid()
      ensures firstTurn == RectifyFirstTurn(first)
      ensures Abstract() == Initial(RectifyFirstTurn(first))
    {
      firstTurn := RectifyFirstTurn(first);
      board := EmptyGrid;
      turn := RectifyFirstTurn(first);
      possibleActions := AllActions;
      winner := None;
      winPosition := None;
      isActive := true;
      new;
      assert Abstract() == Initial(firstTurn);
    }

    /** Back to the initial state with the normalised starting mark. */
    method Reset()
      modifies this
      ensures Valid()
      ensures Abstract() == Initial(firstTurn)
    {
      board := EmptyGrid;
      turn := firstTurn;
      possibleActions := AllActions;
      winner := None;
      winPosition := None;
      isActive := true;
      assert Abstract() == Initial(firstTurn);
    }

    /**
     * Plays `action` for the mover when it is a legal move; any other
     * action is ignored.
     */
    method ExecuteAction(action: Action)
      requires Valid()
      modifies this
      ensures Abstract() == Execute(old(Abstract()), action)
      ensures Valid()
    {
      ghost var g := Abstract();
      if action in possibleActions {
        Play(action);
        ExecuteIs(g, action, Abstract());
      } else {
        IllegalActionIsIgnored(g, action);
      }
    }

    /** The steps of a legal move, field by field. */
    method Play(action: Action)
      requires WellFormed(board) && InRange(action)
      modifies this
      ensures board == Place(old(board), action, old(turn))
      ensures winPosition == WinPosition(board)
      ensures winner == if winPosition.Some? then Some(old(turn)) else old(winner)
      ensures possibleActions == Without(old(possibleActions), action)
      ensures turn == Other(old(turn))
      ensures isActive == (|possibleActions| > 0 && winner.None?)
    {
      UpdateState(action);
      UpdateWinPosition();
      UpdateWinner();
      RemovePossibleAction(action);
      ToggleTurn();
      UpdateIsActive();
    }

    /** Writes the mover's mark into the cell of `action`. */
    method UpdateState(action: Action)
      requires WellFormed(board) && InRange(action)
      modifies this`board
      ensures board == Place(old(board), action, turn)
    {
      var (i, j) := action;
      board := board[i := board[i][j := Some(turn)]];
    }

    method UpdateWinPosition()
      requires WellFormed(board)
      modifies this`winPosition
      ensures winPosition == WinPosition(board)
    {
      winPosition := FindWinPosition();
    }

    /** The mover becomes the winner when a winning line was found. */
    method UpdateWinner()
      modifies this`winner
      ensures winner == if winPosition.Some? then Some(turn) else old(winner)
    {
      if winPosition.Some? {
        winner := Some(turn);
      }
    }

    /** Rebuilds the legal moves without `action`, the rest in their order. */
    method RemovePossibleAction(action: Action)
      modifies this`possibleActions
      ensures possibleActions == Without(old(possibleActions), action)
    {
      var kept: seq<Action> := [];
      var k := 0;
      while k < |possibleActions|
        invariant 0 <= k <= |possibleActions|
        invariant kept == Without(possibleActions[..k], action)
      {
        var pa := possibleActions[k];
        assert possibleActions[..k + 1][..k] == possibleActions[..k];
        if pa != action {
          kept := kept + [pa];
        }
        k := k + 1;
      }
      assert possibleActions[..k] == possibleActions;
      possibleActions := kept;
    }

    /** The game stays active while a move is left and nobody has won. */
    method UpdateIsActive()
      modifies this`isActive
      ensures isActive == (|possibleActions| > 0 && winner.None?)
    {
      isActive := |possibleActions| > 0;
      if winner.Some? {
        isActive := false;
      }
    }

    method ToggleTurn()
      modifies this`turn
      ensures turn == Other(old(turn))
    {
      if turn == X {
        turn := O;
      } else {
        turn := X;
      }
    }

    /** The first filled line among the rows, then the columns, then the diagonals. */
    method FindWinPosition() returns (r: Option<Line>)
      requires WellFormed(board)
      ensures r == WinPosition(board)
    {
      LinesAreValid();
      ghost var g := board;
      FirstWinningAppend(g, Rows, Columns);
      FirstWinningAppend(g, Rows + Columns, Diagonals);
      var rows := GenerateHorizontal();
      r := FindWinningPositionFromPositions(rows);
      if r.Some? {
        return;
      }
      var columns := GenerateVertical();
      r := FindWinningPositionFromPositions(columns);
      if r.Some? {
        return;
      }
      r := FindWinningPositionFromPositions(Diagonals);
    }

    /** The three rows, each as its cells from left to right. */
    method GenerateHorizontal() returns (ps: seq<Line>)
      ensures ps == Rows
    {
      ps := [];
      var i := 0;
      while i < 3
        invariant 0 <= i <= 3
        invariant ps == Rows[..i]
      {
        var h: Line := [];
        var j := 0;
        while j < 3
          invariant 0 <= j <= 3
          invariant h == Rows[i][..j]
        {
          h := h + [(i, j)];
          j := j + 1;
        }
        assert h == Rows[i];
        assert Rows[..i + 1] == Rows[..i] + [Rows[i]];
        ps := ps + [h];
        i := i + 1;
      }
    }

    /** The three columns, each as its cells from top to bottom. */
    method GenerateVertical() returns (ps: seq<Line>)
      ensures ps == Columns
    {
      ps := [];
      var j := 0;
      while j < 3
        invariant 0 <= j <= 3
        invariant ps == Columns[..j]
      {
        var v: Line := [];
        var i := 0;
        while i < 3
          invariant 0 <= i <= 3
          invariant v == Columns[j][..i]
        {
          v := v + [(i, j)];
          i := i + 1;
        }
        assert v == Columns[j];
        assert Columns[..j + 1] == Columns[..j] + [Columns[j]];
        ps := ps + [v];
        j := j + 1;
      }
    }

    /** The first line of `ps` that one mark fills, if any. */
    method FindWinningPositionFromPositions(ps: seq<Line>) returns (r: Option<Line>)
      requires WellFormed(board) && ValidLines(ps)
      ensures r == FirstWinning(board, ps)
    {
      ghost var g := board;
      var k := 0;
      while k < |ps|
        invariant 0 <= k <= |ps|
        invariant forall j :: 0 <= j < k ==> LineOwner(g, ps[j]).None?
      {
        var w := FindWinnerInPosition(ps[k]);
        if w.Some? {
          return Some(ps[k]);
        }
        k := k + 1;
      }
      return None;
    }

    /** Counts the x and o cells of `l`: x when three are x, else o when three are o. */
    method FindWinnerInPosition(l: Line) returns (r: Option<Mark>)
      requires WellFormed(board) && ValidLine(l)
      ensures r == LineOwner(board, l)
    {
      ghost var g := board;
      var xCnt, oCnt := 0, 0;
      var k := 0;
      while k < |l|
        invariant 0 <= k <= |l|
        invariant xCnt == Count(g, l[..k], X) && oCnt == Count(g, l[..k], O)
      {
        var (i, j) := l[k];
        assert l[..k + 1][..k] == l[..k];
        if board[i][j] == Some(X) {
          xCnt := xCnt + 1;
        } else if board[i][j] == Some(O) {
          oCnt := oCnt + 1;
        }
        k := k + 1;
      }
      assert l[..k] == l;
      if xCnt == 3 {
        r := Some(X);
      } else if oCnt == 3 {
        r := Some(O);
      } else {
        r := None;
      }
    }

    /** The board, as a value the caller cannot change the engine through. */
    method GetState() returns (state: Grid)
      ensures state == board
    {
      state := board;
    }

    /** The legal moves, as a value the caller cannot change the engine through. */
    method GetPossibleActions() returns (actions: seq<Action>)
      ensures actions == possibleActions
    {
      actions := possibleActions;
    }

    /**
     * The board as text: one line per row, each cell three characters
     * (`_X_`, `___` above the last row, ` X `, `   ` on it), cells
     * separated by '|'.
     */
    method GetStateAsString() returns (s: string)
      requires WellFormed(board)
      ensures s == Render(board)
    {
      ghost var g := board;
      s := "";
      var i := 0;
      while i < 3
        invariant 0 <= i <= 3
        invariant s == RenderRows(g, i)
      {
        var j := 0;
        while j < 3
          invariant 0 <= j <= 3
          invariant s == RenderRows(g, i) + RowPrefix(g, i, j)
        {
          var text := CellText(board[i][j], i == 2);
          if j < 2 {
            text := text + "|";
          }
          assert RowPrefix(g, i, j + 1) == RowPrefix(g, i, j) + text;
          assert s + text == RenderRows(g, i) + (RowPrefix(g, i, j) + text);
          s := s + text;
          j := j + 1;
        }
        s := s + "\n";
        i := i + 1;
      }
    }
  }
}
