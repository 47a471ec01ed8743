/**
 * The 3x3 board of the tic-tac-toe engine as a value: its marks, cells and
 * coordinates, the eight winning lines and the order in which they are
 * scanned, the empty cells in row-major order, and the text rendering.
 * The engine (module Environment) keeps the board as such a value, which
 * each move replaces, and is specified in terms of these functions.
 */
module Board {
  import opened Optional

  /** The two marks; the source spells them 'x' and 'o'. */
  datatype Mark = X | O

  /** The mark that moves after `m`. */
  function Other(m: Mark): (r: Mark)
    ensures r != m
  {
    if m == X then O else X
  }

  /** Upper-case spelling of a mark, as the renderer prints it. */
  function Upper(m: Mark): char
  {
    if m == X then 'X' else 'O'
  }

  /** A cell is empty (the source's '') or holds a mark. */
  type Cell = Option<Mark>

  /** A row-major grid of cells: the source's list of lists. */
  type Grid = seq<seq<Cell>>

  /** A (row, column) coordinate; the source's actions are these pairs. */
  type Action = (int, int)

  /** Three coordinates that win when they hold the same mark. */
  type Line = seq<Action>

  predicate InRange(a: Action)
  {
    0 <= a.0 < 3 && 0 <= a.1 < 3
  }

  predicate AllInRange(s: seq<Action>)
  {
    forall k :: 0 <= k < |s| ==> InRange(s[k])
  }

  predicate WellFormed(g: Grid)
  {
    |g| == 3 && forall i :: 0 <= i < 3 ==> |g[i]| == 3
  }

  function At(g: Grid, a: Action): Cell
    requires WellFormed(g) && InRange(a)
  {
    g[a.0][a.1]
  }

  /** The board a fresh or reset engine starts from. */
  const EmptyGrid: Grid := [[None, None, None], [None, None, None], [None, None, None]]

  lemma EmptyGridIsEmpty()
    ensures WellFormed(EmptyGrid)
    ensures forall a :: InRange(a) ==> At(EmptyGrid, a) == None
  {
    forall a | InRange(a) ensures At(EmptyGrid, a) == None {
      assert EmptyGrid[a.0] == [None, None, None];
    }
  }

  /** The nine coordinates in row-major order: the initial legal moves. */
  const AllActions: seq<Action> :=
    [(0, 0), (0, 1), (0, 2), (1, 0), (1, 1), (1, 2), (2, 0), (2, 1), (2, 2)]

  lemma AllActionsAreTheCells(a: Action)
    ensures a in AllActions <==> InRange(a)
  {
    if InRange(a) {
      assert a.0 == 0 || a.0 == 1 || a.0 == 2;
      assert a.1 == 0 || a.1 == 1 || a.1 == 2;
    }
  }

  /** The position of a cell in row-major order. */
  function Index(a: Action): int
  {
    3 * a.0 + a.1
  }

  lemma AllActionsInRange()
    ensures AllInRange(AllActions)
  {
    forall k | 0 <= k < |AllActions| ensures InRange(AllActions[k]) {
      assert Index(AllActions[k]) == k;
    }
  }

  /** The nine coordinates are distinct: the k-th of them is the cell at position k. */
  lemma AllActionsDistinct()
    ensures NoDuplicates(AllActions)
  {
    forall k | 0 <= k < |AllActions| ensures Index(AllActions[k]) == k {
    }
    forall i, j | 0 <= i < j < |AllActions| ensures AllActions[i] != AllActions[j] {
      assert Index(AllActions[i]) != Index(AllActions[j]);
    }
  }

  /** `g` with mark `m` written into cell `a`. */
  function Place(g: Grid, a: Action, m: Mark): (r: Grid)
    requires WellFormed(g) && InRange(a)
    ensures WellFormed(r)
    ensures At(r, a) == Some(m)
    ensures forall b :: InRange(b) && b != a ==> At(r, b) == At(g, b)
  {
    g[a.0 := g[a.0][a.1 := Some(m)]]
  }

  // ---------------------------------------------------------------------
  // Winning lines and the scan for three in a row

  const Rows: seq<Line> :=
    [[(0, 0), (0, 1), (0, 2)], [(1, 0), (1, 1), (1, 2)], [(2, 0), (2, 1), (2, 2)]]

  const Columns: seq<Line> :=
    [[(0, 0), (1, 0), (2, 0)], [(0, 1), (1, 1), (2, 1)], [(0, 2), (1, 2), (2, 2)]]

  const Diagonals: seq<Line> :=
    [[(0, 0), (1, 1), (2, 2)], [(0, 2), (1, 1), (2, 0)]]

  /** The eight lines in scan order: rows, then columns, then diagonals. */
  const Lines: seq<Line> := Rows + Columns + Diagonals

  predicate ValidLine(l: Line)
  {
    |l| == 3 && AllInRange(l)
  }

  predicate ValidLines(ls: seq<Line>)
  {
    forall k :: 0 <= k < |ls| ==> ValidLine(ls[k])
  }

  lemma LinesAreValid()
    ensures ValidLines(Rows) && ValidLines(Columns) && ValidLines(Diagonals) && ValidLines(Lines)
  {
  }

  /** Every cell of `l` holds `m`. */
  ghost predicate Holds(g: Grid, l: Line, m: Mark)
    requires WellFormed(g) && AllInRange(l)
  {
    forall k :: 0 <= k < |l| ==> At(g, l[k]) == Some(m)
  }

  /** How many cells of `l` hold `m`. */
  function Count(g: Grid, l: Line, m: Mark): nat
    requires WellFormed(g) && AllInRange(l)
  {
    if l == [] then 0
    else Count(g, l[..|l| - 1], m) + (if At(g, l[|l| - 1]) == Some(m) then 1 else 0)
  }

  /**
   * The mark that fills line `l`, if one does: x when all three cells count
   * as x, else o when all three count as o.
   */
  function LineOwner(g: Grid, l: Line): Option<Mark>
    requires WellFormed(g) && ValidLine(l)
  {
    if Count(g, l, X) == 3 then Some(X) else if Count(g, l, O) == 3 then Some(O) else None
  }

  /** Counting reaches the length of the line exactly when the mark fills it. */
  lemma {:induction false} CountFull(g: Grid, l: Line, m: Mark)
    requires WellFormed(g) && AllInRange(l)
    ensures Count(g, l, m) <= |l|
    ensures Count(g, l, m) == |l| <==> Holds(g, l, m)
  {
    if l != [] {
      var init := l[..|l| - 1];
      CountFull(g, init, m);
      if Count(g, l, m) == |l| {
        forall k | 0 <= k < |l| ensures At(g, l[k]) == Some(m) {
          if k < |l| - 1 { assert l[k] == init[k]; }
        }
      }
      if Holds(g, l, m) {
        assert Holds(g, init, m) by {
          forall k | 0 <= k < |init| ensures At(g, init[k]) == Some(m) { assert init[k] == l[k]; }
        }
      }
    }
  }

  /** A line is owned by `m` exactly when all its cells hold `m`. */
  lemma LineOwnerMeaning(g: Grid, l: Line, m: Mark)
    requires WellFormed(g) && ValidLine(l)
    ensures LineOwner(g, l) == Some(m) <==> Holds(g, l, m)
  {
    CountFull(g, l, X);
    CountFull(g, l, O);
    if Holds(g, l, X) && Holds(g, l, O) {
      assert At(g, l[0]) == Some(X) && At(g, l[0]) == Some(O);
    }
  }

  /**
   * The first line of `ls` that one mark fills, or None: the scan of
   * `_find_winning_position_from_positions`.
   */
  function FirstWinning(g: Grid, ls: seq<Line>): (r: Option<Line>)
    requires WellFormed(g) && ValidLines(ls)
    ensures r.Some? ==> r.value in ls && LineOwner(g, r.value).Some?
    ensures r.None? <==> forall k :: 0 <= k < |ls| ==> LineOwner(g, ls[k]).None?
    ensures forall k :: (0 <= k < |ls| && LineOwner(g, ls[k]).Some?
                         && forall j :: 0 <= j < k ==> LineOwner(g, ls[j]).None?) ==> r == Some(ls[k])
  {
    if ls == [] then None
    else if LineOwner(g, ls[0]).Some? then Some(ls[0])
    else
      var r := FirstWinning(g, ls[1..]);
      assert forall k :: 1 <= k < |ls| ==> ls[k] == ls[1..][k - 1];
      r
  }

  /** Scanning a concatenation scans the first part, then the second. */
  lemma {:induction false} FirstWinningAppend(g: Grid, a: seq<Line>, b: seq<Line>)
    requires WellFormed(g) && ValidLines(a) && ValidLines(b)
    ensures ValidLines(a + b)
    ensures FirstWinning(g, a + b) == if FirstWinning(g, a).Some? then FirstWinning(g, a) else FirstWinning(g, b)
    decreases |a|
  {
    var ab := a + b;
    assert ValidLines(ab) by {
      forall k | 0 <= k < |ab| ensures ValidLine(ab[k]) {
        if k < |a| { assert ab[k] == a[k]; } else { assert ab[k] == b[k - |a|]; }
      }
    }
    if a == [] {
      assert ab == b;
    } else {
      assert ab[0] == a[0] && ab[1..] == a[1..] + b;
      if LineOwner(g, a[0]).None? {
        FirstWinningAppend(g, a[1..], b);
      }
    }
  }

  /** The win position of a board: the first filled line in scan order. */
  function WinPosition(g: Grid): (r: Option<Line>)
    requires WellFormed(g)
  {
    LinesAreValid();
    FirstWinning(g, Lines)
  }

  // ---------------------------------------------------------------------
  // Legal moves: the empty cells, in the order they are listed

  /** The coordinates of `l` whose cell is empty, in the order of `l`. */
  function EmptyAmong(g: Grid, l: seq<Action>): (r: seq<Action>)
    requires WellFormed(g) && AllInRange(l)
    ensures |r| <= |l|
    ensures forall a :: a in r <==> a in l && At(g, a) == None
  {
    if l == [] then []
    else
      var last := l[|l| - 1];
      EmptyAmong(g, l[..|l| - 1]) + (if At(g, last) == None then [last] else [])
  }

  /** When every listed cell is empty, all of them are kept. */
  lemma {:induction false} EmptyAmongAllEmpty(g: Grid, l: seq<Action>)
    requires WellFormed(g) && AllInRange(l)
    requires forall k :: 0 <= k < |l| ==> At(g, l[k]) == None
    ensures EmptyAmong(g, l) == l
  {
    if l != [] {
      EmptyAmongAllEmpty(g, l[..|l| - 1]);
      assert l[..|l| - 1] + [l[|l| - 1]] == l;
    }
  }

  /** The empty cells of `g` in row-major order. */
  function EmptyCells(g: Grid): (r: seq<Action>)
    requires WellFormed(g)
    ensures forall a :: a in r <==> InRange(a) && At(g, a) == None
  {
    forall a ensures a in AllActions <==> InRange(a) { AllActionsAreTheCells(a); }
    EmptyAmong(g, AllActions)
  }

  /** `l` without the elements equal to `a`, the rest in their order. */
  function Without(l: seq<Action>, a: Action): (r: seq<Action>)
  {
    if l == [] then []
    else
      var last := l[|l| - 1];
      Without(l[..|l| - 1], a) + (if last == a then [] else [last])
  }

  predicate NoDuplicates(l: seq<Action>)
  {
    forall i, j :: 0 <= i < j < |l| ==> l[i] != l[j]
  }

  /**
   * In a list without duplicates, removing a member deletes exactly its one
   * occurrence: the rest keep their order and the length drops by one.
   */
  lemma {:induction false} WithoutDeletesOne(l: seq<Action>, a: Action, k: nat)
    requires NoDuplicates(l) && k < |l| && l[k] == a
    ensures Without(l, a) == l[..k] + l[k + 1..]
    ensures |Without(l, a)| == |l| - 1
  {
    var init := l[..|l| - 1];
    if k == |l| - 1 {
      WithoutAbsent(init, a);
      assert l[..k] + l[k + 1..] == init;
    } else {
      assert NoDuplicates(init);
      assert init[k] == a;
      WithoutDeletesOne(init, a, k);
      assert l[|l| - 1] != a;
      assert l[..k] + l[k + 1..] == (init[..k] + init[k + 1..]) + [l[|l| - 1]];
    }
  }

  /** Removing a non-member changes nothing. */
  lemma {:induction false} WithoutAbsent(l: seq<Action>, a: Action)
    requires a !in l
    ensures Without(l, a) == l
  {
    if l != [] {
      WithoutAbsent(l[..|l| - 1], a);
      assert l[..|l| - 1] + [l[|l| - 1]] == l;
    }
  }

  /**
   * Marking an empty cell removes it, and only it, from the empty cells of
   * any list of coordinates.
   */
  lemma {:induction false} EmptyAmongAfterPlace(g: Grid, l: seq<Action>, a: Action, m: Mark)
    requires WellFormed(g) && AllInRange(l) && InRange(a) && At(g, a) == None
    ensures Without(EmptyAmong(g, l), a) == EmptyAmong(Place(g, a, m), l)
  {
    if l != [] {
      var init := l[..|l| - 1];
      var last := l[|l| - 1];
      EmptyAmongAfterPlace(g, init, a, m);
      WithoutConcat(EmptyAmong(g, init), if At(g, last) == None then [last] else [], a);
    }
  }

  lemma {:induction false} WithoutConcat(p: seq<Action>, q: seq<Action>, a: Action)
    requires |q| <= 1
    ensures Without(p + q, a) == Without(p, a) + Without(q, a)
  {
    if q != [] {
      assert (p + q)[..|p + q| - 1] == p;
      assert Without(q, a) == Without([], a) + (if q[0] == a then [] else [q[0]]);
    } else {
      assert p + q == p;
    }
  }

  /** Listed in row-major order, the empty cells have no duplicates. */
  lemma {:induction false} EmptyAmongNoDuplicates(g: Grid, l: seq<Action>)
    requires WellFormed(g) && AllInRange(l) && NoDuplicates(l)
    ensures NoDuplicates(EmptyAmong(g, l))
  {
    if l != [] {
      var init := l[..|l| - 1];
      assert NoDuplicates(init);
      EmptyAmongNoDuplicates(g, init);
      assert l[|l| - 1] !in init;
    }
  }

  // ---------------------------------------------------------------------
  // Text rendering (`get_state_as_string`)

  /**
   * One cell as three characters: `_X_`/`___` on every row but the last,
   * ` X `/`   ` on the last row.
   */
  function CellText(c: Cell, lastRow: bool): (r: string)
    ensures |r| == 3
  {
    match c
    case None => if lastRow then "   " else "___"
    case Some(m) => if lastRow then [' ', Upper(m), ' '] else ['_', Upper(m), '_']
  }

  /** The first `n` cells of row `i`, each but the row's last followed by '|'. */
  function RowPrefix(g: Grid, i: nat, n: nat): string
    requires WellFormed(g) && i < 3 && n <= 3
  {
    if n == 0 then ""
    else RowPrefix(g, i, n - 1) + CellText(g[i][n - 1], i == 2) + (if n - 1 < 2 then "|" else "")
  }

  /** The first `n` rows, each ended by a newline. */
  function RenderRows(g: Grid, n: nat): string
    requires WellFormed(g) && n <= 3
  {
    if n == 0 then "" else RenderRows(g, n - 1) + RowPrefix(g, n - 1, 3) + "\n"
  }

  /** The rendered board. */
  function Render(g: Grid): string
    requires WellFormed(g)
  {
    RenderRows(g, 3)
  }

  /**
   * Layout of the rendering: 3 lines of 12 characters; cell (i, j) is the
   * three characters from 12*i + 4*j on, followed by '|' when j < 2; every
   * line ends in a newline.
   */
  lemma RenderLayout(g: Grid, i: nat, j: nat)
    requires WellFormed(g) && i < 3 && j < 3
    ensures |Render(g)| == 36
    ensures Render(g)[12 * i + 4 * j .. 12 * i + 4 * j + 3] == CellText(g[i][j], i == 2)
    ensures j < 2 ==> Render(g)[12 * i + 4 * j + 3] == '|'
    ensures Render(g)[12 * i + 11] == '\n'
  {
    RowLayout(g, i, j);
    RenderLines(g, i);
    var r, c := Render(g), CellText(g[i][j], i == 2);
    var line := RowPrefix(g, i, 3) + "\n";
    assert r[12 * i + 4 * j] == line[4 * j] == c[0];
    assert r[12 * i + 4 * j + 1] == line[4 * j + 1] == c[1];
    assert r[12 * i + 4 * j + 2] == line[4 * j + 2] == c[2];
    assert r[12 * i + 11] == line[11];
    if j < 2 {
      assert r[12 * i + 4 * j + 3] == line[4 * j + 3];
    }
  }

  /** Row i of the board is rendered as the 12 characters from 12*i on. */
  lemma RenderLines(g: Grid, i: nat)
    requires WellFormed(g) && i < 3
    ensures |Render(g)| == 36 && |RowPrefix(g, i, 3) + "\n"| == 12
    ensures forall m :: 0 <= m < 12 ==> Render(g)[12 * i + m] == (RowPrefix(g, i, 3) + "\n")[m]
  {
    var l0, l1, l2 := RowPrefix(g, 0, 3) + "\n", RowPrefix(g, 1, 3) + "\n", RowPrefix(g, 2, 3) + "\n";
    RowLayout(g, 0, 0);
    RowLayout(g, 1, 0);
    RowLayout(g, 2, 0);
    assert RenderRows(g, 1) == l0;
    assert RenderRows(g, 2) == l0 + l1;
    assert Render(g) == l0 + l1 + l2;
  }

  /** One rendered row: three cells separated by '|', then a newline. */
  lemma RowLayout(g: Grid, i: nat, j: nat)
    requires WellFormed(g) && i < 3 && j < 3
    ensures |RowPrefix(g, i, 3) + "\n"| == 12
    ensures var line, c := RowPrefix(g, i, 3) + "\n", CellText(g[i][j], i == 2);
            line[4 * j] == c[0] && line[4 * j + 1] == c[1] && line[4 * j + 2] == c[2]
    ensures j < 2 ==> (RowPrefix(g, i, 3) + "\n")[4 * j + 3] == '|'
    ensures (RowPrefix(g, i, 3) + "\n")[11] == '\n'
  {
    var c0, c1, c2 := CellText(g[i][0], i == 2), CellText(g[i][1], i == 2), CellText(g[i][2], i == 2);
    assert RowPrefix(g, i, 1) == c0 + "|";
    assert RowPrefix(g, i, 2) == c0 + "|" + c1 + "|";
    assert RowPrefix(g, i, 3) + "\n" == c0 + "|" + c1 + "|" + c2 + "\n";
  }

  /** The empty board renders as in the source's tests. */
  lemma RenderEmpty()
    ensures Render(EmptyGrid) == "___|___|___" + "\n" + "___|___|___" + "\n" + "   |   |   " + "\n"
  {
    var top, bottom := "___|___|___", "   |   |   ";
    assert RenderRows(EmptyGrid, 1) == top + "\n" by {
      EmptyRowText(0);
      assert RenderRows(EmptyGrid, 0) == "";
    }
    assert RenderRows(EmptyGrid, 2) == top + "\n" + top + "\n" by {
      EmptyRowText(1);
    }
    assert RenderRows(EmptyGrid, 3) == top + "\n" + top + "\n" + bottom + "\n" by {
      EmptyRowText(2);
    }
  }

  lemma EmptyRowText(i: nat)
    requires i < 3
    ensures RowPrefix(EmptyGrid, i, 3) == if i == 2 then "   |   |   " else "___|___|___"
  {
    var c := CellText(None, i == 2);
    assert EmptyGrid[i][0] == EmptyGrid[i][1] == EmptyGrid[i][2] == None;
    assert RowPrefix(EmptyGrid, i, 1) == c + "|";
    assert RowPrefix(EmptyGrid, i, 2) == c + "|" + c + "|";
  }
}
