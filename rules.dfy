/**
 * The rules of the tic-tac-toe engine on values: the engine's whole state
 * as a record, the starting-mark normalisation, the initial state, and one
 * call of `execute_action` as a function from state to state. The class in
 * module Environment is proved to follow these functions step for step;
 * the properties of the game are proved here, once, about them.
 */
module Rules {
  import opened Optional
  import opened Board

  /** The argument given for the starting mark: a string, or any other value. */
  datatype FirstTurnArg = Str(s: string) | NotAString

  function LowerChar(c: char): char
  {
    if 'A' <= c <= 'Z' then (c as int + 32) as char else c
  }

  /** ASCII lower-casing of a string, character by character. */
  function Lower(s: string): (r: string)
    ensures |r| == |s|
    ensures forall k :: 0 <= k < |s| ==> r[k] == LowerChar(s[k])
  {
    if s == [] then [] else [LowerChar(s[0])] + Lower(s[1..])
  }

  /**
   * The starting mark: a string is lower-cased and kept when it is "x" or
   * "o"; every other string and every non-string gives x.
   */
  function RectifyFirstTurn(arg: FirstTurnArg): (m: Mark)
    ensures m == O <==> arg == Str("o") || arg == Str("O")
  {
    match arg
    case NotAString => X
    case Str(s) =>
      var t := Lower(s);
      if t != "x" && t != "o" then X
      else
        assert t == "o" ==> s == "o" || s == "O" by {
          if t == "o" { assert |s| == 1 && LowerChar(s[0]) == 'o'; }
        }
        if t == "x" then X else O
  }

  /**
   * Everything the engine holds: the board, whose turn it is, the legal
   * moves in order, the winner, the winning line and the active flag.
   */
  datatype Game = Game(
    board: Grid,
    turn: Mark,
    actions: seq<Action>,
    winner: Option<Mark>,
    winPosition: Option<Line>,
    isActive: bool)

  /**
   * The invariant every reachable state satisfies: the legal moves are the
   * empty cells in row-major order, the win position is the first filled
   * line of the board, there is a winner exactly when there is a win
   * position, and the game is active exactly when a move is left and
   * nobody has won.
   */
  predicate Consistent(g: Game)
  {
    && WellFormed(g.board)
    && g.actions == EmptyCells(g.board)
    && g.winPosition == WinPosition(g.board)
    && (g.winner.Some? <==> g.winPosition.Some?)
    && g.isActive == (|g.actions| > 0 && g.winner.None?)
  }

  /** The state of a fresh or reset engine whose first mover is `first`. */
  function Initial(first: Mark): (g: Game)
    ensures Consistent(g)
    ensures g.actions == AllActions && g.isActive
    ensures forall a :: InRange(a) ==> At(g.board, a) == None
  {
    InitialIsConsistent(first);
    EmptyGridIsEmpty();
    Game(EmptyGrid, first, AllActions, None, None, true)
  }

  lemma InitialIsConsistent(first: Mark)
    ensures Consistent(Game(EmptyGrid, first, AllActions, None, None, true))
  {
    assert WellFormed(EmptyGrid) by { EmptyGridIsEmpty(); }
    assert EmptyCells(EmptyGrid) == AllActions by { EmptyCellsOfEmptyGrid(); }
    assert WinPosition(EmptyGrid) == None by { NoWinOnEmptyGrid(); }
  }

  lemma EmptyCellsOfEmptyGrid()
    ensures EmptyCells(EmptyGrid) == AllActions
  {
    AllActionsInRange();
    EmptyGridIsEmpty();
    EmptyAmongAllEmpty(EmptyGrid, AllActions);
  }

  lemma NoWinOnEmptyGrid()
    ensures WinPosition(EmptyGrid) == None
  {
    LinesAreValid();
    EmptyGridIsEmpty();
    forall k | 0 <= k < |Lines| ensures LineOwner(EmptyGrid, Lines[k]).None? {
      CountOnEmpty(Lines[k], X);
      CountOnEmpty(Lines[k], O);
    }
  }

  /** No cell of the empty board holds a mark. */
  lemma {:induction false} CountOnEmpty(l: Line, m: Mark)
    requires AllInRange(l) && WellFormed(EmptyGrid)
    requires forall a :: InRange(a) ==> At(EmptyGrid, a) == None
    ensures Count(EmptyGrid, l, m) == 0
    decreases |l|
  {
    if l != [] {
      var init := l[..|l| - 1];
      assert AllInRange(init) by {
        forall k | 0 <= k < |init| ensures InRange(init[k]) { assert init[k] == l[k]; }
      }
      CountOnEmpty(init, m);
      assert At(EmptyGrid, l[|l| - 1]) == None;
    }
  }

  /** A filled line stays filled when an empty cell is marked. */
  lemma WinStaysFound(b: Grid, a: Action, m: Mark)
    requires WellFormed(b) && InRange(a) && At(b, a) == None
    requires WinPosition(b).Some?
    ensures WinPosition(Place(b, a, m)).Some?
  {
    LinesAreValid();
    var l := WinPosition(b).value;
    var k :| 0 <= k < |Lines| && Lines[k] == l;
    var owner := LineOwner(b, l).value;
    var b' := Place(b, a, m);
    LineOwnerMeaning(b, l, owner);
    forall i | 0 <= i < |l| ensures At(b', l[i]) == Some(owner) {
      assert At(b, l[i]) == Some(owner);
    }
    LineOwnerMeaning(b', l, owner);
    assert LineOwner(b', Lines[k]).Some?;
  }

  /**
   * One call of `execute_action`. A move that is not among the legal moves
   * changes nothing. A legal move marks the cell with the current turn,
   * rescans the lines, makes the mover the winner when a line is filled,
   * drops the move from the legal moves, passes the turn and recomputes the
   * active flag. Whether the game is still active is not consulted.
   */
  function Execute(g: Game, a: Action): (r: Game)
    requires Consistent(g)
    ensures Consistent(r)
  {
    if a !in g.actions then g
    else
      var board := Place(g.board, a, g.turn);
      var winPosition := WinPosition(board);
      var winner := if winPosition.Some? then Some(g.turn) else g.winner;
      var actions := Without(g.actions, a);
      assert actions == EmptyCells(board) by {
        AllActionsInRange();
        EmptyAmongAfterPlace(g.board, AllActions, a, g.turn);
      }
      assert g.winPosition.Some? ==> winPosition.Some? by {
        if g.winPosition.Some? { WinStaysFound(g.board, a, g.turn); }
      }
      Game(board, Other(g.turn), actions, winner, winPosition, |actions| > 0 && winner.None?)
  }

  // ---------------------------------------------------------------------
  // Properties of one move

  /** An action that is not legal leaves every part of the state as it was. */
  lemma IllegalActionIsIgnored(g: Game, a: Action)
    requires Consistent(g) && a !in g.actions
    ensures Execute(g, a) == g
  {
  }

  /** The state after a legal move, part by part. */
  lemma ExecuteLegal(g: Game, a: Action)
    requires Consistent(g) && a in g.actions
    ensures InRange(a) && At(g.board, a) == None
    ensures Execute(g, a).board == Place(g.board, a, g.turn)
    ensures Execute(g, a).winPosition == WinPosition(Execute(g, a).board)
    ensures Execute(g, a).winner == if Execute(g, a).winPosition.Some? then Some(g.turn) else g.winner
    ensures Execute(g, a).actions == Without(g.actions, a)
    ensures Execute(g, a).turn == Other(g.turn)
    ensures Execute(g, a).isActive == (|Execute(g, a).actions| > 0 && Execute(g, a).winner.None?)
  {
  }

  /** A state that agrees part by part with the result of a legal move is that result. */
  lemma ExecuteIs(g: Game, a: Action, r: Game)
    requires Consistent(g) && a in g.actions
    requires InRange(a) && r.board == Place(g.board, a, g.turn)
    requires r.winPosition == WinPosition(r.board)
    requires r.winner == if r.winPosition.Some? then Some(g.turn) else g.winner
    requires r.actions == Without(g.actions, a) && r.turn == Other(g.turn)
    requires r.isActive == (|r.actions| > 0 && r.winner.None?)
    ensures r == Execute(g, a)
  {
  }

  /** A legal move writes the mover's mark into that cell and no other. */
  lemma LegalActionMarksOneCell(g: Game, a: Action)
    requires Consistent(g) && a in g.actions
    ensures InRange(a) && At(g.board, a) == None
    ensures At(Execute(g, a).board, a) == Some(g.turn)
    ensures forall b :: InRange(b) && b != a ==> At(Execute(g, a).board, b) == At(g.board, b)
  {
  }

  /** The legal moves never repeat. */
  lemma ActionsHaveNoDuplicates(g: Game)
    requires Consistent(g)
    ensures NoDuplicates(g.actions)
  {
    AllActionsInRange();
    AllActionsDistinct();
    EmptyAmongNoDuplicates(g.board, AllActions);
  }

  /**
   * A legal move at position k of the legal moves deletes exactly that
   * entry: the others keep their order and the list shrinks by one.
   */
  lemma LegalActionIsRemoved(g: Game, a: Action, k: nat)
    requires Consistent(g) && k < |g.actions| && g.actions[k] == a
    ensures Execute(g, a).actions == g.actions[..k] + g.actions[k + 1..]
    ensures |Execute(g, a).actions| == |g.actions| - 1
    ensures a !in Execute(g, a).actions
  {
    ActionsHaveNoDuplicates(g);
    WithoutDeletesOne(g.actions, a, k);
  }

  lemma LegalActionShrinks(g: Game, a: Action)
    requires Consistent(g) && a in g.actions
    ensures |Execute(g, a).actions| == |g.actions| - 1
    ensures Execute(g, a).turn == Other(g.turn) && Other(Execute(g, a).turn) == g.turn
  {
    var k :| 0 <= k < |g.actions| && g.actions[k] == a;
    LegalActionIsRemoved(g, a, k);
  }

  /** After a legal move the turn passes to the other mark. */
  lemma LegalActionTogglesTurn(g: Game, a: Action)
    requires Consistent(g) && a in g.actions
    ensures Execute(g, a).turn == Other(g.turn)
    ensures Other(Other(g.turn)) == g.turn
  {
  }

  /**
   * After a legal move the win position is the first filled line in the
   * order rows, columns, diagonals; when there is one the mover becomes the
   * winner, and when there is none winner and win position are unchanged
   * (both still None).
   */
  lemma LegalActionScansForWin(g: Game, a: Action)
    requires Consistent(g) && a in g.actions
    ensures var r := Execute(g, a);
      && r.winPosition == WinPosition(r.board)
      && (r.winPosition.Some? ==> r.winner == Some(g.turn))
      && (r.winPosition.None? ==> r.winner == g.winner == None && g.winPosition == None)
  {
  }

  /**
   * In a game nobody has won yet, the line a legal move completes, if any,
   * is filled with the mover's mark: the recorded winner owns the recorded line.
   */
  lemma WinnerOwnsLine(g: Game, a: Action)
    requires Consistent(g) && g.winner.None? && a in g.actions
    ensures Execute(g, a).winPosition.Some? ==> ValidLine(Execute(g, a).winPosition.value)
    ensures Execute(g, a).winPosition.Some? ==>
              LineOwner(Execute(g, a).board, Execute(g, a).winPosition.value) == Some(g.turn)
  {
    LinesAreValid();
    ExecuteLegal(g, a);
    if Execute(g, a).winPosition.Some? {
      var b, b' := g.board, Execute(g, a).board;
      var l := Execute(g, a).winPosition.value;
      var m := LineOwner(b', l).value;
      LineOwnerMeaning(b', l, m);
      var i :| 0 <= i < |Lines| && Lines[i] == l;
      assert LineOwner(b, Lines[i]).None?;
      LineOwnerMeaning(b, l, m);
      var k :| 0 <= k < |l| && At(b, l[k]) != Some(m);
      assert At(b', l[k]) == Some(m);
      assert l[k] == a;
    }
  }

  /**
   * After a move the game is active exactly when some move is left and no
   * one has won; in particular a full board without a filled line ends the
   * game as a draw.
   */
  lemma ActivityAfterMove(g: Game, a: Action)
    requires Consistent(g)
    ensures var r := Execute(g, a);
      && (r.isActive <==> |r.actions| > 0 && r.winner.None?)
      && ((forall b :: InRange(b) ==> At(r.board, b).Some?) ==> !r.isActive)
  {
    var r := Execute(g, a);
    if forall b :: InRange(b) ==> At(r.board, b).Some? {
      if |r.actions| > 0 {
        assert r.actions[0] in EmptyCells(r.board);
      }
    }
  }

  /**
   * Moves are not refused once the game is won: a legal move made after a
   * win makes the mover the winner, overwriting the earlier winner.
   */
  lemma MoveAfterWinOverwritesWinner(g: Game, a: Action)
    requires Consistent(g) && g.winner.Some? && a in g.actions
    ensures Execute(g, a).winner == Some(g.turn)
    ensures !Execute(g, a).isActive
  {
    WinStaysFound(g.board, a, g.turn);
  }

  // ---------------------------------------------------------------------
  // Sequences of moves

  /** The state after playing `moves` one after the other. */
  function Play(g: Game, moves: seq<Action>): (r: Game)
    requires Consistent(g)
    ensures Consistent(r)
    decreases |moves|
  {
    if moves == [] then g else Play(Execute(g, moves[0]), moves[1..])
  }

  /** Every move of `moves` is legal at the moment it is played. */
  predicate AllLegal(g: Game, moves: seq<Action>)
    requires Consistent(g)
    decreases |moves|
  {
    moves == [] || (moves[0] in g.actions && AllLegal(Execute(g, moves[0]), moves[1..]))
  }

  /**
   * After n legal moves the legal moves have shrunk by exactly n, and the
   * turn is the starting one when n is even and the other one when n is odd.
   */
  lemma {:induction false} PlayedMoves(g: Game, moves: seq<Action>)
    requires Consistent(g) && AllLegal(g, moves)
    ensures |Play(g, moves).actions| == |g.actions| - |moves|
    ensures Play(g, moves).turn == if Even(|moves|) then g.turn else Other(g.turn)
    decreases |moves|
  {
    if moves != [] {
      var a := moves[0];
      LegalActionShrinks(g, a);
      var next, rest := Execute(g, a), moves[1..];
      PlayedMoves(next, rest);
      assert Play(g, moves) == Play(next, rest);
      assert |rest| == |moves| - 1;
      EvenStep(|moves|);
    }
  }

  lemma EvenStep(n: nat)
    requires n > 0
    ensures Even(n) == !Even(n - 1)
  {
  }

  /** Parity of the number of moves played. */
  function Even(n: nat): bool
  {
    if n == 0 then true else !Even(n - 1)
  }

  /** No cell played along the way is legal again afterwards. */
  lemma {:induction false} PlayedCellsStayIllegal(g: Game, moves: seq<Action>)
    requires Consistent(g) && AllLegal(g, moves)
    ensures forall k :: 0 <= k < |moves| ==> moves[k] !in Play(g, moves).actions
    decreases |moves|
  {
    if moves != [] {
      var next := Execute(g, moves[0]);
      PlayedCellsStayIllegal(next, moves[1..]);
      PlayedCellStaysMarked(next, moves[1..], moves[0]);
      forall i | 1 <= i < |moves| ensures moves[i] !in Play(g, moves).actions {
        assert moves[i] == moves[1..][i - 1];
      }
    }
  }

  /** A cell that holds a mark keeps it, so it never becomes legal again. */
  lemma {:induction false} PlayedCellStaysMarked(g: Game, moves: seq<Action>, a: Action)
    requires Consistent(g) && InRange(a) && At(g.board, a).Some?
    ensures At(Play(g, moves).board, a).Some?
    ensures a !in Play(g, moves).actions
    decreases |moves|
  {
    if moves != [] {
      PlayedCellStaysMarked(Execute(g, moves[0]), moves[1..], a);
    }
  }
}
