/** The clear-and-score rule of the game (the step after every placement in
    java/uk/ac/soton/comp1206/game/Game.java): every full row and every full
    column is a line, the cells of all lines are cleared together (a cell on
    a full row and a full column is cleared once), and the score grows by
    lines x cleared cells x 10 x multiplier. */
module Lines {
  import opened Pieces
  import opened Grids

  /** Every cell of row `y` is filled. */
  predicate RowFull(b: Matrix, cols: nat, rows: nat, y: int)
    requires IsBoard(b, cols, rows) && 0 <= y < rows
  {
    forall x :: 0 <= x < cols ==> b[x][y] != 0
  }

  /** Every cell of column `x` is filled. */
  predicate ColFull(b: Matrix, cols: nat, rows: nat, x: int)
    requires IsBoard(b, cols, rows) && 0 <= x < cols
  {
    forall y :: 0 <= y < rows ==> b[x][y] != 0
  }

  /** The number of full rows among rows `0 .. k-1`. */
  function FullRowsBelow(b: Matrix, cols: nat, rows: nat, k: nat): nat
    requires IsBoard(b, cols, rows) && k <= rows
  {
    if k == 0 then 0 else FullRowsBelow(b, cols, rows, k - 1) + (if RowFull(b, cols, rows, k - 1) then 1 else 0)
  }

  /** The number of full columns among columns `0 .. k-1`. */
  function FullColsBelow(b: Matrix, cols: nat, rows: nat, k: nat): nat
    requires IsBoard(b, cols, rows) && k <= cols
  {
    if k == 0 then 0 else FullColsBelow(b, cols, rows, k - 1) + (if ColFull(b, cols, rows, k - 1) then 1 else 0)
  }

  /** The number of lines: full rows plus full columns. */
  function LineCount(b: Matrix, cols: nat, rows: nat): nat
    requires IsBoard(b, cols, rows)
  {
    FullRowsBelow(b, cols, rows, rows) + FullColsBelow(b, cols, rows, cols)
  }

  /** The cells to clear: every cell on a full row or a full column, each once. */
  function ClearedCells(b: Matrix, cols: nat, rows: nat): (s: set<Coordinate>)
    requires IsBoard(b, cols, rows)
    ensures forall c :: c in s ==> 0 <= c.x < cols && 0 <= c.y < rows
  {
    set x: int, y: int | 0 <= x < cols && 0 <= y < rows && (RowFull(b, cols, rows, y) || ColFull(b, cols, rows, x)) :: Coordinate(x, y)
  }

  /** The board with every cell of `s` emptied. */
  function Cleared(b: Matrix, s: set<Coordinate>): (r: Matrix)
    ensures |r| == |b| && forall x :: 0 <= x < |b| ==> |r[x]| == |b[x]|
  {
    seq(|b|, x requires 0 <= x < |b| =>
      seq(|b[x]|, y requires 0 <= y < |b[x]| => if Coordinate(x, y) in s then 0 else b[x][y]))
  }

  /** Emptying cells keeps every cell in range. */
  lemma ClearedInRange(b: Matrix, s: set<Coordinate>)
    requires ValuesInRange(b)
    ensures ValuesInRange(Cleared(b, s))
  {
    var c := Cleared(b, s);
    forall x, y | 0 <= x < |c| && 0 <= y < |c[x]|
      ensures 0 <= c[x][y] <= PieceCount
    {
      assert c[x][y] == if Coordinate(x, y) in s then 0 else b[x][y];
    }
  }

  /** `calculateNewScore`: the points for clearing `lines` lines made of
      `blocks` distinct cells at the given multiplier; never negative. */
  function ScoreGain(lines: int, blocks: int, multiplier: int): (g: int)
    ensures lines >= 0 && blocks >= 0 && multiplier >= 0 ==> g >= 0
    ensures lines == 0 || blocks == 0 ==> g == 0
  {
    lines * blocks * 10 * multiplier
  }

  lemma {:induction false} NoFullRowsBelow(b: Matrix, cols: nat, rows: nat, k: nat)
    requires IsBoard(b, cols, rows) && k <= rows
    requires forall y :: 0 <= y < k ==> !RowFull(b, cols, rows, y)
    ensures FullRowsBelow(b, cols, rows, k) == 0
    decreases k
  {
    if k > 0 {
      NoFullRowsBelow(b, cols, rows, k - 1);
    }
  }

  lemma {:induction false} NoFullColsBelow(b: Matrix, cols: nat, rows: nat, k: nat)
    requires IsBoard(b, cols, rows) && k <= cols
    requires forall x :: 0 <= x < k ==> !ColFull(b, cols, rows, x)
    ensures FullColsBelow(b, cols, rows, k) == 0
    decreases k
  {
    if k > 0 {
      NoFullColsBelow(b, cols, rows, k - 1);
    }
  }

  lemma {:induction false} SomeFullRow(b: Matrix, cols: nat, rows: nat, k: nat) returns (y: int)
    requires IsBoard(b, cols, rows) && k <= rows
    requires FullRowsBelow(b, cols, rows, k) > 0
    ensures 0 <= y < k && RowFull(b, cols, rows, y)
    decreases k
  {
    if RowFull(b, cols, rows, k - 1) {
      y := k - 1;
    } else {
      y := SomeFullRow(b, cols, rows, k - 1);
    }
  }

  lemma {:induction false} SomeFullCol(b: Matrix, cols: nat, rows: nat, k: nat) returns (x: int)
    requires IsBoard(b, cols, rows) && k <= cols
    requires FullColsBelow(b, cols, rows, k) > 0
    ensures 0 <= x < k && ColFull(b, cols, rows, x)
    decreases k
  {
    if ColFull(b, cols, rows, k - 1) {
      x := k - 1;
    } else {
      x := SomeFullCol(b, cols, rows, k - 1);
    }
  }

  /** After the clear step no line is left on a board with at least one row
      and one column: a full line was emptied, and a line that was not full
      still has its empty cell. */
  lemma ClearingLeavesNoLine(b: Matrix, cols: nat, rows: nat)
    requires IsBoard(b, cols, rows) && cols >= 1 && rows >= 1
    ensures IsBoard(Cleared(b, ClearedCells(b, cols, rows)), cols, rows)
    ensures LineCount(Cleared(b, ClearedCells(b, cols, rows)), cols, rows) == 0
  {
    var s := ClearedCells(b, cols, rows);
    var r := Cleared(b, s);
    forall y | 0 <= y < rows
      ensures !RowFull(r, cols, rows, y)
    {
      if RowFull(b, cols, rows, y) {
        assert Coordinate(0, y) in s;
        assert r[0][y] == 0;
      } else {
        var x :| 0 <= x < cols && b[x][y] == 0;
        assert r[x][y] == 0;
      }
    }
    forall x | 0 <= x < cols
      ensures !ColFull(r, cols, rows, x)
    {
      if ColFull(b, cols, rows, x) {
        assert Coordinate(x, 0) in s;
        assert r[x][0] == 0;
      } else {
        var y :| 0 <= y < rows && b[x][y] == 0;
        assert r[x][y] == 0;
      }
    }
    NoFullRowsBelow(r, cols, rows, rows);
    NoFullColsBelow(r, cols, rows, cols);
  }

  /** On a board with at least one row and one column, a line always brings
      cells to clear; so the guard "at least one line and a non-empty cell
      set" differs from "at least one line" only on a board without rows or
      without columns, where every row (or column) is vacuously full. */
  lemma LinesHaveCells(b: Matrix, cols: nat, rows: nat)
    requires IsBoard(b, cols, rows) && LineCount(b, cols, rows) >= 1
    ensures cols >= 1 && rows >= 1 ==> ClearedCells(b, cols, rows) != {}
  {
    if cols >= 1 && rows >= 1 {
      if FullRowsBelow(b, cols, rows, rows) > 0 {
        var y := SomeFullRow(b, cols, rows, rows);
        assert Coordinate(0, y) in ClearedCells(b, cols, rows);
      } else {
        var x := SomeFullCol(b, cols, rows, cols);
        assert Coordinate(x, 0) in ClearedCells(b, cols, rows);
      }
    }
  }

  /** The cells of row `y` among columns `0 .. n-1`. */
  function RowCells(y: int, n: nat): (s: set<Coordinate>)
    ensures |s| == n
    ensures forall c :: c in s <==> 0 <= c.x < n && c.y == y
  {
    if n == 0 then {} else
      var s := RowCells(y, n - 1) + {Coordinate(n - 1, y)};
      assert Coordinate(n - 1, y) !in RowCells(y, n - 1);
      s
  }

  /** The cells of column `x` among rows `0 .. n-1`. */
  function ColCells(x: int, n: nat): (s: set<Coordinate>)
    ensures |s| == n
    ensures forall c :: c in s <==> c.x == x && 0 <= c.y < n
  {
    if n == 0 then {} else
      var s := ColCells(x, n - 1) + {Coordinate(x, n - 1)};
      assert Coordinate(x, n - 1) !in ColCells(x, n - 1);
      s
  }

  /** The cells of the full rows among rows `0 .. k-1`, gathered row by row. */
  function FullRowCells(b: Matrix, cols: nat, rows: nat, k: nat): set<Coordinate>
    requires IsBoard(b, cols, rows) && k <= rows
  {
    if k == 0 then {}
    else FullRowCells(b, cols, rows, k - 1) + (if RowFull(b, cols, rows, k - 1) then RowCells(k - 1, cols) else {})
  }

  /** The cells of the full columns among columns `0 .. k-1`. */
  function FullColCells(b: Matrix, cols: nat, rows: nat, k: nat): set<Coordinate>
    requires IsBoard(b, cols, rows) && k <= cols
  {
    if k == 0 then {}
    else FullColCells(b, cols, rows, k - 1) + (if ColFull(b, cols, rows, k - 1) then ColCells(k - 1, rows) else {})
  }

  /** A cell is among the full rows' cells of rows `0 .. k-1` exactly when
      it is on the board, in one of those rows, and its row is full. */
  lemma {:induction false} FullRowCellMember(b: Matrix, cols: nat, rows: nat, k: nat, c: Coordinate)
    requires IsBoard(b, cols, rows) && k <= rows
    ensures c in FullRowCells(b, cols, rows, k) <==> 0 <= c.x < cols && 0 <= c.y < k && RowFull(b, cols, rows, c.y)
    decreases k
  {
    if k > 0 {
      FullRowCellMember(b, cols, rows, k - 1, c);
      if c.y == k - 1 {
        var full := RowFull(b, cols, rows, k - 1);
        assert c in FullRowCells(b, cols, rows, k) <==> 0 <= c.x < cols && full;
      }
    }
  }

  /** A cell is among the full columns' cells of columns `0 .. k-1` exactly
      when it is on the board, in one of those columns, and its column is
      full. */
  lemma {:induction false} FullColCellMember(b: Matrix, cols: nat, rows: nat, k: nat, c: Coordinate)
    requires IsBoard(b, cols, rows) && k <= cols
    ensures c in FullColCells(b, cols, rows, k) <==> 0 <= c.x < k && 0 <= c.y < rows && ColFull(b, cols, rows, c.x)
    decreases k
  {
    if k > 0 {
      FullColCellMember(b, cols, rows, k - 1, c);
      if c.x == k - 1 {
        var full := ColFull(b, cols, rows, k - 1);
        assert c in FullColCells(b, cols, rows, k) <==> 0 <= c.y < rows && full;
      }
    }
  }

  /** Gathering the full rows' cells and then the full columns' cells gives
      exactly the cells to clear. */
  lemma ClearedCellsGathered(b: Matrix, cols: nat, rows: nat)
    requires IsBoard(b, cols, rows)
    ensures ClearedCells(b, cols, rows) == FullRowCells(b, cols, rows, rows) + FullColCells(b, cols, rows, cols)
  {
    var s := ClearedCells(b, cols, rows);
    var t := FullRowCells(b, cols, rows, rows) + FullColCells(b, cols, rows, cols);
    forall c: Coordinate
      ensures c in s <==> c in t
    {
      FullRowCellMember(b, cols, rows, rows, c);
      FullColCellMember(b, cols, rows, cols, c);
      ClearedMember(b, cols, rows, c);
    }
  }

  lemma {:induction false} OnlyFullRowCount(b: Matrix, cols: nat, rows: nat, y0: int, k: nat)
    requires IsBoard(b, cols, rows) && 0 <= y0 < rows && k <= rows
    requires forall y :: 0 <= y < rows ==> (RowFull(b, cols, rows, y) <==> y == y0)
    ensures FullRowsBelow(b, cols, rows, k) == if y0 < k then 1 else 0
    decreases k
  {
    if k > 0 {
      OnlyFullRowCount(b, cols, rows, y0, k - 1);
    }
  }

  lemma {:induction false} OnlyFullColCount(b: Matrix, cols: nat, rows: nat, x0: int, k: nat)
    requires IsBoard(b, cols, rows) && 0 <= x0 < cols && k <= cols
    requires forall x :: 0 <= x < cols ==> (ColFull(b, cols, rows, x) <==> x == x0)
    ensures FullColsBelow(b, cols, rows, k) == if x0 < k then 1 else 0
    decreases k
  {
    if k > 0 {
      OnlyFullColCount(b, cols, rows, x0, k - 1);
    }
  }

  /** A single full row and no full column: one line of `cols` cells. */
  lemma SingleRowCleared(b: Matrix, cols: nat, rows: nat, y0: int)
    requires IsBoard(b, cols, rows) && 0 <= y0 < rows
    requires forall y :: 0 <= y < rows ==> (RowFull(b, cols, rows, y) <==> y == y0)
    requires forall x :: 0 <= x < cols ==> !ColFull(b, cols, rows, x)
    ensures LineCount(b, cols, rows) == 1
    ensures ClearedCells(b, cols, rows) == RowCells(y0, cols)
    ensures |ClearedCells(b, cols, rows)| == cols
  {
    OnlyFullRowCount(b, cols, rows, y0, rows);
    NoFullColsBelow(b, cols, rows, cols);
    var s := ClearedCells(b, cols, rows);
    forall c | c in RowCells(y0, cols)
      ensures c in s
    {
      assert c == Coordinate(c.x, c.y);
    }
  }

  lemma CrossCells(b: Matrix, cols: nat, rows: nat, x0: int, y0: int)
    requires IsBoard(b, cols, rows) && 0 <= x0 < cols && 0 <= y0 < rows
    requires forall y :: 0 <= y < rows ==> (RowFull(b, cols, rows, y) <==> y == y0)
    requires forall x :: 0 <= x < cols ==> (ColFull(b, cols, rows, x) <==> x == x0)
    ensures ClearedCells(b, cols, rows) == RowCells(y0, cols) + ColCells(x0, rows)
  {
    forall c
      ensures c in ClearedCells(b, cols, rows) <==> c in RowCells(y0, cols) + ColCells(x0, rows)
    {
      ClearedMember(b, cols, rows, c);
      if 0 <= c.x < cols && 0 <= c.y < rows {
        assert RowFull(b, cols, rows, c.y) <==> c.y == y0;
        assert ColFull(b, cols, rows, c.x) <==> c.x == x0;
      }
    }
  }

  /** A cell is cleared exactly when it is on the board and on a full row
      or a full column. */
  lemma ClearedMember(b: Matrix, cols: nat, rows: nat, c: Coordinate)
    requires IsBoard(b, cols, rows)
    ensures c in ClearedCells(b, cols, rows) <==>
      0 <= c.x < cols && 0 <= c.y < rows && (RowFull(b, cols, rows, c.y) || ColFull(b, cols, rows, c.x))
  {
    assert c == Coordinate(c.x, c.y);
  }

  /** One full row crossing one full column: two lines whose union has
      `cols + rows - 1` cells, the crossing cell counted once. */
  lemma RowAndColumnCleared(b: Matrix, cols: nat, rows: nat, x0: int, y0: int)
    requires IsBoard(b, cols, rows) && 0 <= x0 < cols && 0 <= y0 < rows
    requires forall y :: 0 <= y < rows ==> (RowFull(b, cols, rows, y) <==> y == y0)
    requires forall x :: 0 <= x < cols ==> (ColFull(b, cols, rows, x) <==> x == x0)
    ensures LineCount(b, cols, rows) == 2
    ensures |ClearedCells(b, cols, rows)| == cols + rows - 1
  {
    OnlyFullRowCount(b, cols, rows, y0, rows);
    OnlyFullColCount(b, cols, rows, x0, cols);
    CrossCells(b, cols, rows, x0, y0);
    CrossSize(x0, y0, cols, rows);
  }

  lemma CrossSize(x0: int, y0: int, cols: nat, rows: nat)
    requires 0 <= x0 < cols && 0 <= y0 < rows
    ensures |RowCells(y0, cols) + ColCells(x0, rows)| == cols + rows - 1
  {
    var row := RowCells(y0, cols);
    var col := ColCells(x0, rows);
    assert row * col == {Coordinate(x0, y0)};
  }

  /** On a 5x5 board, a first cross (multiplier 1) of one row and one column
      scores 2 lines x 9 cells x 10 = 180. */
  lemma CrossOnFiveByFive(b: Matrix, x0: int, y0: int)
    requires IsBoard(b, 5, 5) && 0 <= x0 < 5 && 0 <= y0 < 5
    requires forall y :: 0 <= y < 5 ==> (RowFull(b, 5, 5, y) <==> y == y0)
    requires forall x :: 0 <= x < 5 ==> (ColFull(b, 5, 5, x) <==> x == x0)
    ensures ScoreGain(LineCount(b, 5, 5), |ClearedCells(b, 5, 5)|, 1) == 180
  {
    RowAndColumnCleared(b, 5, 5, x0, y0);
  }
}
