# Tic-tac-toe testbed: engine, interpreter and agents in Dafny

This project models the core of a small reinforcement-learning testbed. The
core has four parts:

- **The tic-tac-toe engine** (`TicTacToe` on top of the environment `Base`).
  - It holds a 3x3 board, the mark to move, the legal moves in row-major
    order, the winner, the winning line and an active flag.
  - `execute_action` ignores any move that is not legal.
  - A legal move runs six steps in order:
    1. mark the cell;
    2. rescan the rows, then the columns, then the diagonals for a filled
       line;
    3. make the mover the winner when a line is found;
    4. drop the move from the legal moves;
    5. pass the turn;
    6. recompute the active flag.
  - The guard does not look at the active flag, so a move made after a win
    is still played. It overwrites the winner.
  - `reset`, the normalisation of the starting mark, the copy-returning
    accessors and the text rendering of the board complete the engine.
- **The Q-learning interpreter.**
  - It shows the board from the mover's side, inverting it when o is to
    move. It flattens the board into 18 entries, two per cell.
  - It rewards its own mark: 1 for a win, -1 for a loss, 0 otherwise.
  - It reports `not is_active` as the terminal flag.
  - It remembers the mover's mark on every call made while the game is
    active.
- **The tabular Q-learning agent.** It keeps these tables:
  - values per state and action;
  - the actions of each state in the order they were first offered;
  - the previous state and action;
  - an exploration rate that falls by 1 / training amount per finished
    episode.

  It updates values with the Bellman rule (learning rate 0.3, discount
  0.9), using the value of the first action of a stable descending sort.
  It chooses epsilon-greedily.
- **The random agent.** It draws uniformly among the offered actions.

## Modules

The model follows the source's structure:

- `Board`: cells, lines and the scan order, empty cells and the rendering.
  These are pure functions.
- `Rules`: the engine's state as a value, `Initial`, one `execute_action` as
  `Execute`, the invariant `Consistent`, and the game properties.
- `Environment`: the engine as a class whose fields the methods reassign.
  Each public method is proved to move the object's abstract value as
  `Rules` says.
- `Interpreter`: the encoding and reward as functions, and the interpreter
  class with its remembered mark.
- `ActionRanking`: the stable descending sort, the highest value and the
  exploit candidates.
- `QLearningAgent`: the Bellman update, registration, the exploration
  schedule and the agent class.
- `RandomAgent`: the random agent.

Randomness is a parameter. `Chance.Pick(n, roll)` turns a roll in [0, 1)
into an index below n, and stands for `randint(0, n - 1)`. The
explore-or-exploit draw is a roll compared with the exploration rate.

## Model

| member | source | states |
|---|---|---|
| Chance.Pick | agent/q_learning/q_learning.py:84-88 | the index drawn for n alternatives is below n |
| Chance.PickCovers | agent/q_learning/q_learning.py:84-88 | every index below n is drawn by some roll in [0, 1) |
| Board.Other | environment/tic_tac_toe/tic_tac_toe.py:112-116 | the mark that moves next differs from the one that just moved |
| Board.EmptyGridIsEmpty | environment/tic_tac_toe/tic_tac_toe.py:75-76 | the initial board is 3x3 and every cell is empty |
| Board.AllActionsAreTheCells | environment/tic_tac_toe/tic_tac_toe.py:78-79 | the initial legal moves are exactly the nine coordinates of the board |
| Board.AllActionsInRange | environment/tic_tac_toe/tic_tac_toe.py:78-79 | every initial legal move is a coordinate of the board |
| Board.AllActionsDistinct | environment/tic_tac_toe/tic_tac_toe.py:78-79 | the initial legal moves contain no repetition |
| Board.Place | environment/tic_tac_toe/tic_tac_toe.py:88-90 | marking a cell sets that cell to the mark and leaves every other cell as it was |
| Board.CountFull | environment/tic_tac_toe/tic_tac_toe.py:180-195 | the count of a mark in a line never exceeds its length, and reaches it exactly when every cell holds the mark |
| Board.LineOwnerMeaning | environment/tic_tac_toe/tic_tac_toe.py:180-195 | the winner of a line is m exactly when all three of its cells hold m |
| Board.FirstWinning | environment/tic_tac_toe/tic_tac_toe.py:169-178 | the scan returns a line of the list that one mark fills, it returns none exactly when no line is filled, and it returns the first filled line |
| Board.FirstWinningAppend | environment/tic_tac_toe/tic_tac_toe.py:118-128 | scanning rows, then columns, then diagonals one after another finds the same line as scanning the eight lines at once |
| Board.EmptyAmong | environment/tic_tac_toe/tic_tac_toe.py:99-105 | the kept coordinates are exactly the listed ones whose cell is empty |
| Board.EmptyAmongAllEmpty | environment/tic_tac_toe/tic_tac_toe.py:78-79 | when every listed cell is empty, the list is kept whole and in order |
| Board.EmptyCells | environment/tic_tac_toe/tic_tac_toe.py:78-79 | the empty cells are exactly the in-range coordinates whose cell holds no mark |
| Board.WithoutDeletesOne | environment/tic_tac_toe/tic_tac_toe.py:99-105 | in a list without repetitions, removing the member at position k leaves the rest in order, one shorter |
| Board.WithoutAbsent | environment/tic_tac_toe/tic_tac_toe.py:99-105 | removing a move that is not listed changes nothing |
| Board.WithoutConcat | environment/tic_tac_toe/tic_tac_toe.py:99-105 | removal distributes over appending one more element |
| Board.EmptyAmongAfterPlace | environment/tic_tac_toe/tic_tac_toe.py:99-105 | marking an empty cell removes that cell, and only it, from the empty cells |
| Board.EmptyAmongNoDuplicates | environment/tic_tac_toe/tic_tac_toe.py:99-105 | the empty cells of a list without repetitions have none |
| Board.CellText | environment/tic_tac_toe/tic_tac_toe.py:48-62 | a cell is always three characters wide |
| Board.RenderLayout | environment/tic_tac_toe/tic_tac_toe.py:41-67 | the rendering has 36 characters. Cell (i, j) is the three characters from 12i+4j on, underscore-padded above the last row and space-padded on it. The first two cells of a line are followed by a bar, and every line ends in a newline |
| Board.RenderLines | environment/tic_tac_toe/tic_tac_toe.py:46-65 | row i is rendered as the 12 characters from position 12i on |
| Board.RowLayout | environment/tic_tac_toe/tic_tac_toe.py:47-64 | a rendered row is its three cells separated by bars, then a newline |
| Board.RenderEmpty | environment/tic_tac_toe/tic_tac_toe.py:41-67 | the empty board renders as two lines of underscore-padded empty cells and a last line of space-padded ones, as in the source's tests |
| Rules.Lower | environment/tic_tac_toe/tic_tac_toe.py:81-82 | lower-casing keeps the length and lower-cases each character |
| Rules.RectifyFirstTurn | environment/tic_tac_toe/tic_tac_toe.py:69-86 | the starting mark is o exactly when the argument is the string "o" or "O"; every other string and every non-string gives x |
| Rules.Initial | environment/base.py:7-10 | a fresh engine is consistent, with all nine moves legal in row-major order, active, and every cell empty |
| Rules.InitialIsConsistent | environment/base.py:7-10 | the initial state satisfies the engine's invariant |
| Rules.EmptyCellsOfEmptyGrid | environment/tic_tac_toe/tic_tac_toe.py:75-79 | the empty cells of the empty board are the nine initial moves, in order |
| Rules.NoWinOnEmptyGrid | environment/tic_tac_toe/tic_tac_toe.py:118-128 | the empty board has no win position |
| Rules.CountOnEmpty | environment/tic_tac_toe/tic_tac_toe.py:180-189 | no cell of the empty board counts for either mark |
| Rules.WinStaysFound | environment/tic_tac_toe/tic_tac_toe.py:92-97 | a filled line stays filled when another empty cell is marked |
| Rules.Execute | environment/tic_tac_toe/tic_tac_toe.py:26-33 | a move keeps the invariant: the legal moves are the empty cells, the win position is the first filled line, a winner exists exactly with a win position, and the game is active exactly when a move is left and nobody has won |
| Rules.IllegalActionIsIgnored | environment/tic_tac_toe/tic_tac_toe.py:26-27 | a move that is not legal leaves the whole state unchanged |
| Rules.ExecuteLegal | environment/tic_tac_toe/tic_tac_toe.py:26-33 | an unfolding of `Execute` for a legal move, used by `WinnerOwnsLine` and `WinningMoveRewarded`: the move is in range on an empty cell, and the resulting state is given field by field, following the six steps in order |
| Rules.ExecuteIs | environment/tic_tac_toe/tic_tac_toe.py:26-33 | the converse unfolding, used by `TicTacToe.ExecuteAction`: any state that matches those six steps field by field is the result of the move |
| Rules.LegalActionMarksOneCell | environment/tic_tac_toe/tic_tac_toe.py:88-90 | a legal move writes the mover's mark into its cell and changes no other cell |
| Rules.ActionsHaveNoDuplicates | environment/tic_tac_toe/tic_tac_toe.py:99-105 | the legal moves never contain a repetition |
| Rules.LegalActionIsRemoved | environment/tic_tac_toe/tic_tac_toe.py:99-105 | a legal move deletes exactly its own entry; the others keep their order, the list shrinks by one, and the move is no longer legal |
| Rules.LegalActionShrinks | environment/tic_tac_toe/tic_tac_toe.py:99-116 | a legal move shortens the legal moves by one and passes the turn |
| Rules.LegalActionTogglesTurn | environment/tic_tac_toe/tic_tac_toe.py:112-116 | after a legal move the turn is the other mark, and two toggles give the mark back |
| Rules.LegalActionScansForWin | environment/tic_tac_toe/tic_tac_toe.py:92-97 | after a legal move the win position is the first filled line. When there is one the mover is the winner; when there is none, winner and win position stay none |
| Rules.WinnerOwnsLine | environment/tic_tac_toe/tic_tac_toe.py:92-97 | in a game nobody has won yet, the line a legal move completes, if any, is filled with the mover's mark, so the recorded winner owns the recorded line |
| Rules.ActivityAfterMove | environment/tic_tac_toe/tic_tac_toe.py:107-110 | after any move the game is active exactly when a move is left and there is no winner, and a full board is inactive |
| Rules.MoveAfterWinOverwritesWinner | environment/tic_tac_toe/tic_tac_toe.py:95-97 | a legal move made after a win makes the new mover the winner, and the game stays inactive |
| Rules.Play | environment/tic_tac_toe/tic_tac_toe.py:26-33 | any sequence of moves keeps the invariant |
| Rules.PlayedMoves | environment/tic_tac_toe/tic_tac_toe.py:99-116 | after n legal moves there are n fewer legal moves, and the turn is the starting one exactly when n is even |
| Rules.PlayedCellsStayIllegal | environment/tic_tac_toe/tic_tac_toe.py:99-105 | no cell played in a sequence is legal at its end |
| Rules.PlayedCellStaysMarked | environment/tic_tac_toe/tic_tac_toe.py:88-105 | a marked cell stays marked through any moves and never becomes legal again |
| Environment.TicTacToe.constructor | environment/tic_tac_toe/tic_tac_toe.py:6-12 | a new engine is in the initial state, with the normalised starting mark to move |
| Environment.TicTacToe.Reset | environment/tic_tac_toe/tic_tac_toe.py:35-39 | after a reset the engine is in the initial state with the normalised starting mark, whatever came before (so a second reset changes nothing), and the invariant holds |
| Environment.TicTacToe.ExecuteAction | environment/tic_tac_toe/tic_tac_toe.py:26-33 | the engine's new value is `Rules.Execute` of its old value, and the invariant holds |
| Environment.TicTacToe.Play | environment/tic_tac_toe/tic_tac_toe.py:28-33 | the six steps of a legal move, field by field, on the object |
| Environment.TicTacToe.UpdateState | environment/tic_tac_toe/tic_tac_toe.py:88-90 | the board afterwards is the old board with the mover's mark in the chosen cell |
| Environment.TicTacToe.UpdateWinPosition | environment/tic_tac_toe/tic_tac_toe.py:92-93 | the win position becomes the first filled line of the board |
| Environment.TicTacToe.UpdateWinner | environment/tic_tac_toe/tic_tac_toe.py:95-97 | the mover becomes the winner when a win position exists; otherwise the winner is kept |
| Environment.TicTacToe.RemovePossibleAction | environment/tic_tac_toe/tic_tac_toe.py:99-105 | the legal moves afterwards are the old ones without the move, in their order |
| Environment.TicTacToe.UpdateIsActive | environment/tic_tac_toe/tic_tac_toe.py:107-110 | the flag is set exactly when a move is left and there is no winner |
| Environment.TicTacToe.ToggleTurn | environment/tic_tac_toe/tic_tac_toe.py:112-116 | the turn passes to the other mark |
| Environment.TicTacToe.FindWinPosition | environment/tic_tac_toe/tic_tac_toe.py:118-140 | the three scans, in order, return the first filled line of the eight |
| Environment.TicTacToe.GenerateHorizontal | environment/tic_tac_toe/tic_tac_toe.py:142-151 | the generated lines are the three rows, left to right |
| Environment.TicTacToe.GenerateVertical | environment/tic_tac_toe/tic_tac_toe.py:153-164 | the generated lines are the three columns, top to bottom |
| Environment.TicTacToe.FindWinningPositionFromPositions | environment/tic_tac_toe/tic_tac_toe.py:169-178 | the loop returns the first line of the list that one mark fills |
| Environment.TicTacToe.FindWinnerInPosition | environment/tic_tac_toe/tic_tac_toe.py:180-195 | the counting loop returns x when three cells are x, else o when three are o, else none |
| Environment.TicTacToe.GetState | environment/base.py:12-14 | the board is returned as a value equal to the engine's board |
| Environment.TicTacToe.GetPossibleActions | environment/base.py:20-22 | the legal moves are returned as a value equal to the engine's list |
| Environment.TicTacToe.GetStateAsString | environment/tic_tac_toe/tic_tac_toe.py:41-67 | the nested loops build exactly the rendering of the board |
| Interpreter.InvertedCell | environment_interpreter/tic_tac_toe/q_learning.py:80-87 | an empty cell stays empty and a mark becomes the other mark |
| Interpreter.InvertedRow | environment_interpreter/tic_tac_toe/q_learning.py:73-78 | every cell of the row is inverted, the length is kept |
| Interpreter.Inverted | environment_interpreter/tic_tac_toe/q_learning.py:37-44 | every row of the board is inverted, the number of rows is kept |
| Interpreter.InvertedInvolutive | environment_interpreter/tic_tac_toe/q_learning.py:80-87 | inverting twice gives the board back |
| Interpreter.InvertedCells | environment_interpreter/tic_tac_toe/q_learning.py:37-44 | an inverted 3x3 board is 3x3 and holds the swapped mark in every cell |
| Interpreter.RowCodeAt | environment_interpreter/tic_tac_toe/q_learning.py:50-59 | entries 2j and 2j+1 of a row's code are the code of cell j |
| Interpreter.EncodingLength | environment_interpreter/tic_tac_toe/q_learning.py:46-61 | a board of rows of three cells encodes to six entries per row |
| Interpreter.EncodingAt | environment_interpreter/tic_tac_toe/q_learning.py:46-61 | entry 6i+k of the encoding is entry k of row i's code |
| Interpreter.EncodingLayout | environment_interpreter/tic_tac_toe/q_learning.py:46-61 | a 3x3 board encodes to 18 entries, and cell (i, j) is the pair at 6i+2j |
| Interpreter.DecodeCellCode | environment_interpreter/tic_tac_toe/q_learning.py:50-59 | each cell's code reads back as that cell |
| Interpreter.DecodeEncoding | environment_interpreter/tic_tac_toe/q_learning.py:46-61 | the encoding has 18 entries and decoding it gives the board back, so no two boards share an encoding |
| Interpreter.PerspectiveEncoding | environment_interpreter/tic_tac_toe/q_learning.py:20-26 | whoever is to move, its own cells encode as (0, 1), its opponent's as (1, 0) and empty cells as (0, 0) |
| Interpreter.EmptyBoardObservedAsZeros | environment_interpreter/tic_tac_toe/q_learning.py:20-26 | the empty board is observed as 18 zeros, whoever is to move |
| Interpreter.RowCodeOfEmpty | environment_interpreter/tic_tac_toe/q_learning.py:57-59 | a row of empty cells encodes to zeros |
| Interpreter.EncodingOfEmpty | environment_interpreter/tic_tac_toe/q_learning.py:46-61 | a board of empty cells encodes to zeros |
| Interpreter.Reward | environment_interpreter/tic_tac_toe/q_learning.py:63-71 | the reward is 1 exactly when there is a winner and it is the remembered mark. It is -1 exactly when there is a winner that is not (also when no mark is remembered), and 0 exactly when there is no winner |
| Interpreter.Latched | environment_interpreter/tic_tac_toe/q_learning.py:28-30 | while the game is active the remembered mark becomes the mover's on every call; otherwise it is kept |
| Interpreter.WinningMoveRewarded | environment_interpreter/tic_tac_toe/q_learning.py:28-35 | after a winning move, the winner's interpreter sees a terminal state with reward 1, and the other player's sees a terminal state with reward -1 |
| Interpreter.TerminalInterpretationStable | environment_interpreter/tic_tac_toe/q_learning.py:28-35 | once the game is over, the mark is kept, the observation is terminal, and interpreting again gives the same observation |
| Interpreter.QLearningInterpreter.constructor | environment_interpreter/tic_tac_toe/q_learning.py:8-11 | a new interpreter watches the given engine and remembers no mark |
| Interpreter.QLearningInterpreter.Interpret | environment_interpreter/tic_tac_toe/q_learning.py:13-18 | the observation and the new mark are `Interpretation` of the old mark and the engine's state, with state, then reward, then terminal flag computed in that order |
| Interpreter.QLearningInterpreter.InterpretState | environment_interpreter/tic_tac_toe/q_learning.py:20-26 | the state is the encoding of the board, inverted exactly when o is to move |
| Interpreter.QLearningInterpreter.InterpretReward | environment_interpreter/tic_tac_toe/q_learning.py:28-32 | the mark is latched first, and the reward is then computed from the new mark |
| Interpreter.QLearningInterpreter.InterpretIsTerminal | environment_interpreter/tic_tac_toe/q_learning.py:34-35 | terminal exactly when the engine is not active |
| Interpreter.QLearningInterpreter.InverseState | environment_interpreter/tic_tac_toe/q_learning.py:37-44 | the loop builds the inverted board row by row |
| Interpreter.QLearningInterpreter.GenerateObservableState | environment_interpreter/tic_tac_toe/q_learning.py:46-61 | the nested loops build exactly the encoding of the board |
| Interpreter.QLearningInterpreter.CalculateReward | environment_interpreter/tic_tac_toe/q_learning.py:63-71 | the reward for the engine's winner and the remembered mark |
| Interpreter.QLearningInterpreter.InverseRow | environment_interpreter/tic_tac_toe/q_learning.py:73-78 | the loop builds the inverted row cell by cell |
| ActionRanking.Insert | agent/q_learning/q_learning.py:104-105 | inserting keeps every action valued and adds one |
| ActionRanking.Ranked | agent/q_learning/q_learning.py:104-105 | the sort keeps every action valued and keeps the length |
| ActionRanking.InsertPermutes | agent/q_learning/q_learning.py:104-105 | insertion adds exactly the one action to the multiset |
| ActionRanking.RankedPermutes | agent/q_learning/q_learning.py:104-105 | the sorted list is a permutation of the known actions |
| ActionRanking.RankedMembers | agent/q_learning/q_learning.py:104-105 | an action is in the sorted list exactly when it is known |
| ActionRanking.InsertMembers | agent/q_learning/q_learning.py:104-105 | the members after insertion are the old ones and the inserted action |
| ActionRanking.InsertDescending | agent/q_learning/q_learning.py:104-105 | inserting into a list in decreasing order of value keeps it in decreasing order |
| ActionRanking.RankedDescending | agent/q_learning/q_learning.py:104-105 | the sorted list is in decreasing order of value |
| ActionRanking.WithValueMembers | agent/q_learning/q_learning.py:95-96 | the actions picked for a value are exactly those of the list with that value |
| ActionRanking.WithValueAppend | agent/q_learning/q_learning.py:94-96 | picking the actions of a value distributes over concatenation |
| ActionRanking.InsertStable | agent/q_learning/q_learning.py:104-105 | insertion after all actions of at least its value keeps the order among actions of each value |
| ActionRanking.NoneWithValue | agent/q_learning/q_learning.py:104-105 | a descending list whose first value is below v holds no action of value v |
| ActionRanking.RankedStable | agent/q_learning/q_learning.py:104-105 | the sort is stable: the actions of each value keep their registration order |
| ActionRanking.Top | agent/q_learning/q_learning.py:90-92 | the highest value is the value of some known action and no known action exceeds it |
| ActionRanking.RankedFirst | agent/q_learning/q_learning.py:90-92 | the first sorted action has the highest value and is the earliest registered among the actions of that value |
| ActionRanking.Among | agent/q_learning/q_learning.py:94-96 | an action is kept exactly when it is listed and legal |
| ActionRanking.AmongAppend | agent/q_learning/q_learning.py:94-96 | filtering for legal actions distributes over concatenation |
| ActionRanking.CandidatesAreBestLegal | agent/q_learning/q_learning.py:90-97 | the exploit candidates are the legal known actions of the highest value in registration order: an action is a candidate exactly when it is known, legal and of the highest value |
| QLearningAgent.Bellman | agent/q_learning/q_learning.py:75-76 | the new value's distance to reward + 0.9 * next is 0.7 times the old value's distance |
| QLearningAgent.BellmanBounded | agent/q_learning/q_learning.py:75-76 | with rewards in [-1, 1], values in [-10, 10] stay there |
| QLearningAgent.RegisterStep | agent/q_learning/q_learning.py:40-42 | offering one action keeps the row consistent, appends the action if it is new, keeps the old order and old values, and starts a new action at 0 |
| QLearningAgent.RegisteredKeepsAgreement | agent/q_learning/q_learning.py:39-42 | after the offered actions are registered, the valued actions are exactly the registered ones, each once |
| QLearningAgent.RegisteredMembers | agent/q_learning/q_learning.py:39-42 | afterwards the registered actions are the old ones and the offered ones |
| QLearningAgent.RegisteredPrefix | agent/q_learning/q_learning.py:39-42 | the old registration order is a prefix of the new one: nothing is removed or reordered |
| QLearningAgent.RegisteredValues | agent/q_learning/q_learning.py:39-42 | old values are kept and every newly registered action starts at 0 |
| QLearningAgent.RegisterKeepsTables | agent/q_learning/q_learning.py:38-42 | registration keeps both tables in agreement and the previous action valued |
| QLearningAgent.WithState | agent/q_learning/q_learning.py:28-30 | a new state gets an empty row; known states keep theirs |
| QLearningAgent.WithStateActions | agent/q_learning/q_learning.py:28-30 | a new state gets an empty action list; known states keep theirs |
| QLearningAgent.WithStateAgrees | agent/q_learning/q_learning.py:28-30 | adding a state keeps the tables in agreement |
| QLearningAgent.Updated | agent/q_learning/q_learning.py:67-80 | the update adds no state and no action |
| QLearningAgent.UpdatedFrame | agent/q_learning/q_learning.py:67-80 | no value changes but that of the previous state and action |
| QLearningAgent.UpdatedFallback | agent/q_learning/q_learning.py:79-80 | without the Bellman update, a terminal observation writes its reward as the previous state and action's value, and any other observation leaves the table unchanged |
| QLearningAgent.UpdatedUsesTop | agent/q_learning/q_learning.py:72-76 | the Bellman branch reads the highest value known in the observed state |
| QLearningAgent.UpdatedAgrees | agent/q_learning/q_learning.py:67-80 | the update keeps the tables in agreement |
| QLearningAgent.UpdatedBounded | agent/q_learning/q_learning.py:67-80 | with rewards in [-1, 1], a table whose values lie in [-10, 10] keeps them there |
| QLearningAgent.Observed | agent/q_learning/q_learning.py:27-32 | observing adds the state, keeps every state's actions, keeps the tables in agreement and the previous action valued |
| QLearningAgent.Decay | agent/q_learning/q_learning.py:35-36 | a terminal observation lowers a positive rate by the decay; otherwise the rate is unchanged |
| QLearningAgent.Schedule | agent/q_learning/q_learning.py:20-36 | with decay 1/n, the rate after k episodes is 1 - k/n up to n episodes and 0 afterwards |
| QLearningAgent.ScheduleBounds | agent/q_learning/q_learning.py:20-36 | the rate stays within [0, 1] |
| QLearningAgent.BestChoiceSpec | agent/q_learning/q_learning.py:90-102 | the exploit step returns a legal known action of the highest value, and returns none exactly when no such action is legal |
| QLearningAgent.BestChoiceLegal | agent/q_learning/q_learning.py:90-102 | the exploit step only returns legal actions |
| QLearningAgent.BestChoiceCovers | agent/q_learning/q_learning.py:98-100 | every legal known action of the highest value is returned for some roll |
| QLearningAgent.QLearning.constructor | agent/q_learning/q_learning.py:10-21 | empty tables, no previous or current state, rate 1 and decay 1 / training amount |
| QLearningAgent.QLearning.PrepareForEpisode | agent/q_learning/q_learning.py:23-25 | only the previous state and action are cleared; tables and rate are untouched |
| QLearningAgent.QLearning.ObserveEnvironment | agent/q_learning/q_learning.py:27-36 | the tables become `Observed`, the observed state becomes current, the previous state and action are kept, and the rate decays on a terminal observation |
| QLearningAgent.QLearning.DecayEpsilon | agent/q_learning/q_learning.py:35-36 | the rate follows `Decay`, and matches the schedule after one more episode when the observation is terminal |
| QLearningAgent.QLearning.ChooseAction | agent/q_learning/q_learning.py:38-52 | unseen offered actions are registered in order at 0. Exploring returns the drawn offered action; exploiting returns `BestChoice` on the new tables. The result is always legal, and the current state and choice become the previous ones |
| QLearningAgent.QLearning.Remember | agent/q_learning/q_learning.py:49-50 | the current state and the choice become the previous ones |
| QLearningAgent.QLearning.Decide | agent/q_learning/q_learning.py:44-47 | exploring when the roll is below the rate and exploiting otherwise; the choice is legal and valued |
| QLearningAgent.QLearning.RegisterActions | agent/q_learning/q_learning.py:39-42 | the loop leaves the current state's row as `Registered` says, every offered action known, and the list no shorter |
| QLearningAgent.QLearning.AddStateToQTable | agent/q_learning/q_learning.py:61-62 | the state gets an empty row |
| QLearningAgent.QLearning.AddActionToQTable | agent/q_learning/q_learning.py:64-65 | the action gets value 0 in the current state |
| QLearningAgent.QLearning.UpdateQTable | agent/q_learning/q_learning.py:67-80 | the table becomes `Updated` of the old one |
| QLearningAgent.QLearning.ChooseRandomAction | agent/q_learning/q_learning.py:84-88 | the drawn action is the offered one at the drawn index |
| QLearningAgent.QLearning.ChooseBestAction | agent/q_learning/q_learning.py:90-102 | the loop collects the candidates and returns `BestChoice` |
| QLearningAgent.QLearning.GetActionsByValue | agent/q_learning/q_learning.py:104-105 | the current actions sorted by `Ranked` |
| RandomAgent.ChooseAction | agent/random/random.py:10-17 | for actions of any type, an action is returned exactly when one is offered, and it is one of them |
| RandomAgent.ChooseActionCovers | agent/random/random.py:10-15 | every offered action is returned for some roll |

## Left out

- The DQN agents, the episode driver (`play.py`), the interpreter factories and the pass-through interpreters are not part of this model. They are network training, console I/O and type dispatch.
- `save_q_table` (a pickle file named by the clock) and `print_special_case_info` (console output) are I/O and are not modelled.
- The random agent's `observe_environment` and `prepare_for_episode` do nothing, so `RandomAgent` has only the choice.
- `random()` and `randint` are parameters: a roll in [0, 1) and `Chance.Pick`. The model says nothing about their distribution beyond every alternative being reachable.
- Q-values, rewards and the exploration rate are `real`. Floating-point rounding is not modelled, in particular the rate ending a hair above or below 0 after the planned number of episodes.
- Rules.Lower: lower-cases ASCII letters only; Unicode case folding of the starting-mark string is not modelled.
- Environment.TicTacToe.constructor: the starting mark is a `FirstTurnArg` value; the Python default `'x'` is the caller passing `Str("x")`.
- Environment.TicTacToe.ExecuteAction: moves are pairs of integers; the source's membership test also accepts values of any other type, which are never legal and are ignored.
- Environment.TicTacToe.GetState: the board is a sequence of rows that the engine reassigns. A returned board is therefore a value, like the source's deep copy. Aliasing of the board's lists is not modelled.
- QLearningAgent.QLearning.constructor: requires a positive training amount; with 0 the source divides by zero.
- QLearningAgent.QLearning.ObserveEnvironment: requires a previous state for a terminal observation, as the source's unguarded lookup of the previous state's row fails without one.
- QLearningAgent.Updated: on a terminal observation with a previous state but no previous action (after an exploit step that found no legal action), the source stores the reward under a `None` action; the model leaves the table unchanged there, since `None` is not an action.
- QLearningAgent.QLearning.ChooseAction: requires a current state, as the source's lookup of the actions of a `None` state fails. It also requires an offered action when exploring and an offered or known action when exploiting. Otherwise the source's `randint(0, -1)` or the index into an empty sort fails.
- QLearningAgent.QLearning.RegisterActions: with Decide and Remember, it names a step that the source writes inline in `choose_action`.
- Environment.TicTacToe.Play: names the steps that the source writes inline in `execute_action`.
- QLearningAgent.State: states are sequences of integers, the encoded tuples the interpreter produces; actions are the engine's coordinate pairs rather than arbitrary values.
- QLearningAgent.UpdatedBounded: assumes rewards in [-1, 1], which is what the interpreter produces.
