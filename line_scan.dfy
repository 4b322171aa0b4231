/** The loops of `afterPiecePlayed` (java/uk/ac/soton/comp1206/game/Game.java)
    that find the lines on the grid and empty their cells: rows first, then
    columns, each scan stopping at the first empty cell, the cells to clear
    gathered in a set so a cell on a full row and a full column is cleared
    once, and the set then emptied cell by cell in no particular order. */
module LineScan {
  import opened Pieces
  import opened Grids
  import opened Lines

  /** The inner scan of a row: whether every cell of row `y` is filled. */
  method RowIsFull(grid: Grid, y: int) returns (full: bool)
    requires grid.Valid() && 0 <= y < grid.rows
    ensures full == RowFull(grid.Board(), grid.cols, grid.rows, y)
  {
    ghost var b := grid.Board();
    full := true;
    var col := 0;
    while col < grid.cols
      invariant 0 <= col <= grid.cols
      invariant forall x :: 0 <= x < col ==> b[x][y] != 0
    {
      if grid.GetGridValue(col, y) == 0 {
        full := false;
        break;
      }
      col := col + 1;
    }
  }

  /** The inner scan of a column: whether every cell of column `x` is filled. */
  method ColIsFull(grid: Grid, x: int) returns (full: bool)
    requires grid.Valid() && 0 <= x < grid.cols
    ensures full == ColFull(grid.Board(), grid.cols, grid.rows, x)
  {
    ghost var b := grid.Board();
    full := true;
    var row := 0;
    while row < grid.rows
      invariant 0 <= row <= grid.rows
      invariant forall y :: 0 <= y < row ==> b[x][y] != 0
    {
      if grid.GetGridValue(x, row) == 0 {
        full := false;
        break;
      }
      row := row + 1;
    }
  }

  /** Adds the cells of row `y` one by one. */
  method AddRowCells(s: set<Coordinate>, y: int, cols: nat) returns (r: set<Coordinate>)
    ensures r == s + RowCells(y, cols)
  {
    r := s;
    var col := 0;
    while col < cols
      invariant 0 <= col <= cols
      invariant r == s + RowCells(y, col)
    {
      r := r + {Coordinate(col, y)};
      col := col + 1;
    }
  }

  /** Adds the cells of column `x` one by one. */
  method AddColCells(s: set<Coordinate>, x: int, rows: nat) returns (r: set<Coordinate>)
    ensures r == s + ColCells(x, rows)
  {
    r := s;
    var row := 0;
    while row < rows
      invariant 0 <= row <= rows
      invariant r == s + ColCells(x, row)
    {
      r := r + {Coordinate(x, row)};
      row := row + 1;
    }
  }

  /** One step of the row scan: row `y` is added when it is full, so the
      rows below `y` scanned so far become the rows up to and including `y`. */
  method ScanRow(grid: Grid, y: int, found: set<Coordinate>, count: nat) returns (toClear: set<Coordinate>, lines: nat)
    requires grid.Valid() && 0 <= y < grid.rows
    requires found == FullRowCells(grid.Board(), grid.cols, grid.rows, y)
    requires count == FullRowsBelow(grid.Board(), grid.cols, grid.rows, y)
    ensures toClear == FullRowCells(grid.Board(), grid.cols, grid.rows, y + 1)
    ensures lines == FullRowsBelow(grid.Board(), grid.cols, grid.rows, y + 1)
  {
    var full := RowIsFull(grid, y);
    toClear, lines := found, count;
    if full {
      lines := lines + 1;
      toClear := AddRowCells(toClear, y, grid.cols);
    }
  }

  /** One step of the column scan, on top of what the row scan found
      (`rowCells`, `rowLines`): column `x` is added when it is full. */
  method ScanCol(grid: Grid, x: int, found: set<Coordinate>, count: nat, ghost rowCells: set<Coordinate>, ghost rowLines: nat)
      returns (toClear: set<Coordinate>, lines: nat)
    requires grid.Valid() && 0 <= x < grid.cols
    requires found == rowCells + FullColCells(grid.Board(), grid.cols, grid.rows, x)
    requires count == rowLines + FullColsBelow(grid.Board(), grid.cols, grid.rows, x)
    ensures toClear == rowCells + FullColCells(grid.Board(), grid.cols, grid.rows, x + 1)
    ensures lines == rowLines + FullColsBelow(grid.Board(), grid.cols, grid.rows, x + 1)
  {
    var full := ColIsFull(grid, x);
    toClear, lines := found, count;
    if full {
      lines := lines + 1;
      toClear := AddColCells(toClear, x, grid.rows);
    }
  }

  /** The row scan: the cells of the full rows and how many there are. */
  method ScanRows(grid: Grid) returns (toClear: set<Coordinate>, lines: nat)
    requires grid.Valid()
    ensures toClear == FullRowCells(grid.Board(), grid.cols, grid.rows, grid.rows)
    ensures lines == FullRowsBelow(grid.Board(), grid.cols, grid.rows, grid.rows)
  {
    toClear := {};
    lines := 0;
    var row := 0;
    while row < grid.rows
      invariant 0 <= row <= grid.rows
      invariant toClear == FullRowCells(grid.Board(), grid.cols, grid.rows, row)
      invariant lines == FullRowsBelow(grid.Board(), grid.cols, grid.rows, row)
    {
      toClear, lines := ScanRow(grid, row, toClear, lines);
      row := row + 1;
    }
  }

  /** The column scan, adding to what the row scan found. */
  method ScanCols(grid: Grid, found: set<Coordinate>, count: nat) returns (toClear: set<Coordinate>, lines: nat)
    requires grid.Valid()
    ensures toClear == found + FullColCells(grid.Board(), grid.cols, grid.rows, grid.cols)
    ensures lines == count + FullColsBelow(grid.Board(), grid.cols, grid.rows, grid.cols)
  {
    toClear := found;
    lines := count;
    var col := 0;
    while col < grid.cols
      invariant 0 <= col <= grid.cols
      invariant toClear == found + FullColCells(grid.Board(), grid.cols, grid.rows, col)
      invariant lines == count + FullColsBelow(grid.Board(), grid.cols, grid.rows, col)
    {
      toClear, lines := ScanCol(grid, col, toClear, lines, found, count);
      col := col + 1;
    }
  }

  /** The row scan, then the column scan: the cells to clear and the number
      of lines, exactly as the clear rule defines them. */
  method ScanLines(grid: Grid) returns (toClear: set<Coordinate>, lines: nat)
    requires grid.Valid()
    ensures toClear == ClearedCells(grid.Board(), grid.cols, grid.rows)
    ensures lines == LineCount(grid.Board(), grid.cols, grid.rows)
  {
    toClear, lines := ScanRows(grid);
    toClear, lines := ScanCols(grid, toClear, lines);
    ClearedCellsGathered(grid.Board(), grid.cols, grid.rows);
  }

  /** Sets every cell of `s` to 0, visiting the cells in an arbitrary order
      (a `HashSet`'s); no other cell changes. */
  method ClearCells(grid: Grid, s: set<Coordinate>)
    requires grid.Valid()
    requires forall c :: c in s ==> 0 <= c.x < grid.cols && 0 <= c.y < grid.rows
    modifies grid.cells
    ensures grid.Board() == Cleared(old(grid.Board()), s)
  {
    ghost var before := grid.Board();
    var remaining := s;
    while remaining != {}
      invariant remaining <= s
      invariant forall x, y :: 0 <= x < grid.cols && 0 <= y < grid.rows ==>
        grid.cells[x, y] == if Coordinate(x, y) in s - remaining then 0 else before[x][y]
      decreases remaining
    {
      var block :| block in remaining;
      grid.UpdateGridValue(block.x, block.y, 0);
      remaining := remaining - {block};
    }
    grid.SameBoard(Cleared(before, s));
  }
}
