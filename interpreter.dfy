/**
 * The translation of the engine's state into what a tabular Q-learning
 * agent observes: the board seen from the mover's side and flattened into
 * eighteen 0/1 entries, a reward for the interpreter's own mark, and
 * whether the episode is over. The specification functions come first;
 * the interpreter object, which remembers its mark between calls, follows.
 */
module Interpreter {
  import opened Optional
  import opened Board
  import opened Rules
  import opened Environment

  /** What the agent is shown: the encoded state, the reward and the terminal flag. */
  datatype Observation = Observation(state: seq<int>, reward: real, isTerminal: bool)

  // ---------------------------------------------------------------------
  // The board from the other side

  /** o becomes x, x becomes o, an empty cell stays empty. */
  function InvertedCell(c: Cell): (r: Cell)
    ensures r.None? <==> c.None?
    ensures c.Some? ==> r == Some(Other(c.value))
  {
    if c == Some(O) then Some(X) else if c == Some(X) then Some(O) else c
  }

  function InvertedRow(row: seq<Cell>): (r: seq<Cell>)
    ensures |r| == |row|
    ensures forall k :: 0 <= k < |row| ==> r[k] == InvertedCell(row[k])
  {
    if row == [] then [] else InvertedRow(row[..|row| - 1]) + [InvertedCell(row[|row| - 1])]
  }

  function Inverted(g: Grid): (r: Grid)
    ensures |r| == |g|
    ensures forall i :: 0 <= i < |g| ==> r[i] == InvertedRow(g[i])
  {
    if g == [] then [] else Inverted(g[..|g| - 1]) + [InvertedRow(g[|g| - 1])]
  }

  /** Swapping the marks twice gives the board back. */
  lemma InvertedInvolutive(g: Grid)
    ensures Inverted(Inverted(g)) == g
  {
    var r := Inverted(Inverted(g));
    forall i | 0 <= i < |g| ensures r[i] == g[i] {
      var row := InvertedRow(InvertedRow(g[i]));
      forall k | 0 <= k < |g[i]| ensures row[k] == g[i][k] {
        var m := g[i][k];
        assert m.Some? ==> Other(Other(m.value)) == m.value;
      }
    }
  }

  /** Inverting a well-formed board keeps its shape and swaps the mark in every cell. */
  lemma InvertedCells(g: Grid)
    requires WellFormed(g)
    ensures WellFormed(Inverted(g))
    ensures forall a :: InRange(a) ==> At(Inverted(g), a) == InvertedCell(At(g, a))
  {
  }

  /** The board as the mover sees it: o's boards are inverted so the mover is always x. */
  function Perspective(g: Grid, turn: Mark): Grid
  {
    if turn == O then Inverted(g) else g
  }

  // ---------------------------------------------------------------------
  // Encoding

  /** x is [0, 1], o is [1, 0], an empty cell [0, 0]. */
  function CellCode(c: Cell): seq<int>
  {
    match c
    case Some(X) => [0, 1]
    case Some(O) => [1, 0]
    case None => [0, 0]
  }

  function RowCode(row: seq<Cell>): (r: seq<int>)
    ensures |r| == 2 * |row|
  {
    if row == [] then [] else RowCode(row[..|row| - 1]) + CellCode(row[|row| - 1])
  }

  /** The cells' codes row by row, left to right. */
  function Encoding(g: Grid): seq<int>
  {
    if g == [] then [] else Encoding(g[..|g| - 1]) + RowCode(g[|g| - 1])
  }

  /** Entries 2*j and 2*j + 1 of a row's code are the code of cell j. */
  lemma {:induction false} RowCodeAt(row: seq<Cell>, j: nat)
    requires j < |row|
    ensures RowCode(row)[2 * j] == CellCode(row[j])[0]
    ensures RowCode(row)[2 * j + 1] == CellCode(row[j])[1]
    decreases |row|
  {
    var init := row[..|row| - 1];
    var a, b := RowCode(init), CellCode(row[|row| - 1]);
    assert RowCode(row) == a + b;
    if j < |row| - 1 {
      RowCodeAt(init, j);
      assert init[j] == row[j];
    }
  }

  lemma {:induction false} EncodingLength(g: Grid)
    requires forall k :: 0 <= k < |g| ==> |g[k]| == 3
    ensures |Encoding(g)| == 6 * |g|
    decreases |g|
  {
    if g != [] {
      EncodingLength(g[..|g| - 1]);
    }
  }

  /** Entry 6*i + k of the encoding is entry k of the code of row i. */
  lemma {:induction false} EncodingAt(g: Grid, i: nat, k: nat)
    requires forall r :: 0 <= r < |g| ==> |g[r]| == 3
    requires i < |g| && k < 6
    ensures |Encoding(g)| == 6 * |g|
    ensures Encoding(g)[6 * i + k] == RowCode(g[i])[k]
    decreases |g|
  {
    var init := g[..|g| - 1];
    EncodingLength(init);
    EncodingLength(g);
    var e, f := Encoding(init), RowCode(g[|g| - 1]);
    assert Encoding(g) == e + f;
    if i < |init| {
      EncodingAt(init, i, k);
      assert init[i] == g[i];
    }
  }

  /**
   * The encoding has 18 entries, and cell (i, j) of a well-formed board
   * is the pair of entries at 6*i + 2*j.
   */
  lemma EncodingLayout(g: Grid, i: nat, j: nat)
    requires WellFormed(g) && i < 3 && j < 3
    ensures |Encoding(g)| == 18
    ensures Encoding(g)[6 * i + 2 * j] == CellCode(g[i][j])[0]
    ensures Encoding(g)[6 * i + 2 * j + 1] == CellCode(g[i][j])[1]
  {
    EncodingLength(g);
    EncodingAt(g, i, 2 * j);
    EncodingAt(g, i, 2 * j + 1);
    RowCodeAt(g[i], j);
  }

  /** The cell a pair of entries stands for. */
  function DecodeCell(first: int, second: int): Cell
  {
    if first == 0 && second == 1 then Some(X)
    else if first == 1 && second == 0 then Some(O)
    else None
  }

  /** Reads an 18-entry encoding back into a board. */
  function Decode(s: seq<int>): (g: Grid)
    requires |s| == 18
    ensures WellFormed(g)
  {
    seq(3, i requires 0 <= i < 3 =>
      seq(3, j requires 0 <= j < 3 => DecodeCell(s[6 * i + 2 * j], s[6 * i + 2 * j + 1])))
  }

  /** Cell (i, j) of the decoded board is read from the pair at 6*i + 2*j. */
  lemma DecodeAt(s: seq<int>, i: nat, j: nat)
    requires |s| == 18 && i < 3 && j < 3
    ensures Decode(s)[i][j] == DecodeCell(s[6 * i + 2 * j], s[6 * i + 2 * j + 1])
  {
  }

  /** The encoding loses nothing: decoding it gives the board back. */
  lemma DecodeEncoding(g: Grid)
    requires WellFormed(g)
    ensures |Encoding(g)| == 18
    ensures Decode(Encoding(g)) == g
  {
    EncodingLength(g);
    var e := Encoding(g);
    var d := Decode(e);
    forall i | 0 <= i < 3 ensures d[i] == g[i] {
      forall j | 0 <= j < 3 ensures d[i][j] == g[i][j] {
        EncodingLayout(g, i, j);
        DecodeAt(e, i, j);
        DecodeCellCode(g[i][j]);
      }
    }
  }

  lemma DecodeCellCode(c: Cell)
    ensures DecodeCell(CellCode(c)[0], CellCode(c)[1]) == c
  {
    CellCases(c);
  }

  /** The state part of an observation of board `g` with `turn` to move. */
  function ObservedState(g: Grid, turn: Mark): seq<int>
  {
    Encoding(Perspective(g, turn))
  }

  /**
   * Whoever is to move, its own marks are encoded [0, 1], its opponent's
   * [1, 0] and empty cells [0, 0].
   */
  lemma PerspectiveEncoding(g: Grid, turn: Mark, i: nat, j: nat)
    requires WellFormed(g) && i < 3 && j < 3
    ensures |ObservedState(g, turn)| == 18
    ensures [ObservedState(g, turn)[6 * i + 2 * j], ObservedState(g, turn)[6 * i + 2 * j + 1]] ==
            if g[i][j] == Some(turn) then [0, 1]
            else if g[i][j] == Some(Other(turn)) then [1, 0]
            else [0, 0]
  {
    InvertedCells(g);
    assert At(g, (i, j)) == g[i][j];
    EncodingLayout(Perspective(g, turn), i, j);
  }

  /** The empty board is all zeros whoever is to move. */
  lemma EmptyBoardObservedAsZeros(turn: Mark)
    ensures |ObservedState(EmptyGrid, turn)| == 18
    ensures forall k :: 0 <= k < 18 ==> ObservedState(EmptyGrid, turn)[k] == 0
  {
    EmptyGridIsEmpty();
    InvertedCells(EmptyGrid);
    var p := Perspective(EmptyGrid, turn);
    assert forall i, j :: 0 <= i < 3 && 0 <= j < 3 ==> At(p, (i, j)) == None;
    EncodingLength(p);
    EncodingOfEmpty(p);
  }

  lemma {:induction false} RowCodeOfEmpty(row: seq<Cell>)
    requires forall k :: 0 <= k < |row| ==> row[k] == None
    ensures forall k :: 0 <= k < |RowCode(row)| ==> RowCode(row)[k] == 0
    decreases |row|
  {
    if row != [] {
      RowCodeOfEmpty(row[..|row| - 1]);
    }
  }

  lemma {:induction false} EncodingOfEmpty(g: Grid)
    requires forall i, j :: 0 <= i < |g| && 0 <= j < |g[i]| ==> g[i][j] == None
    ensures forall k :: 0 <= k < |Encoding(g)| ==> Encoding(g)[k] == 0
    decreases |g|
  {
    if g != [] {
      EncodingOfEmpty(g[..|g| - 1]);
      RowCodeOfEmpty(g[|g| - 1]);
    }
  }

  /** Appending a cell's code extends the row's code by that code. */
  lemma RowCodeStep(row: seq<Cell>, j: nat)
    requires j < |row|
    ensures RowCode(row[..j + 1]) == RowCode(row[..j]) + CellCode(row[j])
  {
    assert row[..j + 1][..j] == row[..j];
  }

  lemma EncodingStep(g: Grid, i: nat)
    requires i < |g|
    ensures Encoding(g[..i + 1]) == Encoding(g[..i]) + RowCode(g[i])
  {
    assert g[..i + 1][..i] == g[..i];
  }

  // ---------------------------------------------------------------------
  // Reward and the remembered mark

  /**
   * 1 when the winner is the interpreter's mark, -1 when there is a winner
   * that is not (an interpreter that never saw an active game has no mark),
   * 0 when nobody has won.
   */
  function Reward(winner: Option<Mark>, mark: Option<Mark>): (r: real)
    ensures r == 1.0 <==> winner.Some? && mark == winner
    ensures r == -1.0 <==> winner.Some? && mark != winner
    ensures r == 0.0 <==> winner.None?
  {
    if winner.Some? && winner == mark then 1.0
    else if winner.Some? && winner != mark then -1.0
    else 0.0
  }

  /** The mark is taken over from the engine on every call while the game is active. */
  function Latched(mark: Option<Mark>, env: Game): (r: Option<Mark>)
    ensures env.isActive ==> r == Some(env.turn)
    ensures !env.isActive ==> r == mark
  {
    if env.isActive then Some(env.turn) else mark
  }

  /** One interpretation: the observation and the mark remembered afterwards. */
  function Interpretation(mark: Option<Mark>, env: Game): (Observation, Option<Mark>)
    requires WellFormed(env.board)
  {
    var m := Latched(mark, env);
    (Observation(ObservedState(env.board, env.turn), Reward(env.winner, m), !env.isActive), m)
  }

  /**
   * Seen by the interpreter of the player whose move ends the game with a
   * win, the resulting state is terminal and rewarded 1; seen by the other
   * player's interpreter it is terminal and rewarded -1.
   */
  lemma WinningMoveRewarded(g: Game, a: Action, other: Option<Mark>)
    requires Consistent(g) && g.isActive && a in g.actions
    requires Execute(g, a).winner.Some?
    requires other != Some(g.turn)
    ensures Interpretation(Latched(None, g), Execute(g, a)).0 ==
            Observation(ObservedState(Execute(g, a).board, Other(g.turn)), 1.0, true)
    ensures Interpretation(other, Execute(g, a)).0.reward == -1.0
    ensures Interpretation(other, Execute(g, a)).0.isTerminal
  {
    ExecuteLegal(g, a);
  }

  /**
   * Once the game is over, interpreting it again changes neither the mark
   * nor the observation.
   */
  lemma TerminalInterpretationStable(mark: Option<Mark>, env: Game)
    requires WellFormed(env.board) && !env.isActive
    ensures Interpretation(mark, env).1 == mark
    ensures Interpretation(Interpretation(mark, env).1, env) == Interpretation(mark, env)
    ensures Interpretation(mark, env).0.isTerminal
  {
  }

  /** A cell is x, o or empty. */
  lemma CellCases(c: Cell)
    ensures c == Some(X) || c == Some(O) || c == None
  {
    match c
    case None =>
    case Some(m) => assert m == X || m == O;
  }

  lemma Regroup(a: seq<int>, b: seq<int>, c: seq<int>)
    ensures (a + b) + c == a + (b + c)
  {
  }

  // ---------------------------------------------------------------------
  // The interpreter object

  class QLearningInterpreter {
    const environment: TicTacToe
    /** The mark of the player this interpreter serves, once it has been seen. */
    var mark: Option<Mark>

    constructor (environment: TicTacToe)
      ensures this.environment == environment && mark == None
    {
      this.environment := environment;
      mark := None;
    }

    /**
     * The observation of the engine's current state: state, reward and
     * terminal flag, in that order; the reward remembers the mover's mark
     * while the game is active.
     */
    method Interpret() returns (o: Observation)
      requires WellFormed(environment.board)
      modifies this`mark
      ensures (o, mark) == Interpretation(old(mark), environment.Abstract())
    {
      var state := InterpretState();
      var reward := InterpretReward();
      var isTerminal := InterpretIsTerminal();
      o := Observation(state, reward, isTerminal);
    }

    method InterpretState() returns (state: seq<int>)
      requires WellFormed(environment.board)
      ensures state == ObservedState(environment.board, environment.turn)
    {
      var g := environment.GetState();
      if environment.turn == O {
        g := InverseState();
      }
      state := GenerateObservableState(g);
    }

    method InterpretReward() returns (reward: real)
      modifies this`mark
      ensures mark == Latched(old(mark), environment.Abstract())
      ensures reward == Reward(environment.winner, mark)
    {
      if environment.isActive {
        mark := Some(environment.turn);
      }
      reward := CalculateReward();
    }

    method InterpretIsTerminal() returns (isTerminal: bool)
      ensures isTerminal == !environment.isActive
    {
      isTerminal := !environment.isActive;
    }

    /** The engine's board with x and o swapped, row by row. */
    method InverseState() returns (g: Grid)
      ensures g == Inverted(environment.board)
    {
      var rows := environment.GetState();
      g := [];
      var k := 0;
      while k < |rows|
        invariant 0 <= k <= |rows|
        invariant g == Inverted(rows[..k])
      {
        var row := InverseRow(rows[k]);
        assert rows[..k + 1][..k] == rows[..k];
        g := g + [row];
        k := k + 1;
      }
      assert rows[..k] == rows;
    }

    /** The codes of the cells, row by row. */
    static method GenerateObservableState(state: Grid) returns (s: seq<int>)
      ensures s == Encoding(state)
    {
      s := [];
      var i := 0;
      while i < |state|
        invariant 0 <= i <= |state|
        invariant s == Encoding(state[..i])
      {
        var row := state[i];
        EncodingStep(state, i);
        ghost var before := s;
        var j := 0;
        while j < |row|
          invariant 0 <= j <= |row|
          invariant s == before + RowCode(row[..j])
        {
          RowCodeStep(row, j);
          Regroup(before, RowCode(row[..j]), CellCode(row[j]));
          CellCases(row[j]);
          if row[j] == Some(X) {
            s := s + [0, 1];
          } else if row[j] == Some(O) {
            s := s + [1, 0];
          } else {
            s := s + [0, 0];
          }
          j := j + 1;
        }
        assert row[..j] == row;
        i := i + 1;
      }
      assert state[..i] == state;
    }

    method CalculateReward() returns (r: real)
      ensures r == Reward(environment.winner, mark)
    {
      var winner := environment.winner;
      if winner.Some? && winner == mark {
        r := 1.0;
      } else if winner.Some? && winner != mark {
        r := -1.0;
      } else {
        r := 0.0;
      }
    }

    /** The row with x and o swapped. */
    static method InverseRow(row: seq<Cell>) returns (r: seq<Cell>)
      ensures r == InvertedRow(row)
    {
      r := [];
      var k := 0;
      while k < |row|
        invariant 0 <= k <= |row|
        invariant r == InvertedRow(row[..k])
      {
        assert row[..k + 1][..k] == row[..k];
        r := r + [InvertedCell(row[k])];
        k := k + 1;
      }
      assert row[..k] == row;
    }

  }
}
