/** The playing board (java/uk/ac/soton/comp1206/game/Grid.java): a
    `cols` by `rows` array of cell values indexed `[x, y]`, 0 meaning empty
    and any other value the colour of the piece that filled the cell. */
module Grids {
  import opened Pieces

  /** `GameBlockCoordinate`: a cell position. */
  datatype Coordinate = Coordinate(x: int, y: int)

  /** Java's `int` division, which truncates toward zero. */
  function JavaDiv(a: int, b: int): (q: int)
    requires b > 0
    ensures a >= 0 ==> q == a / b
    ensures a < 0 ==> q == -((-a) / b)
  {
    if a >= 0 then a / b else -((-a) / b)
  }

  /** `b` has `cols` columns of `rows` cells each. */
  predicate IsBoard(b: Matrix, cols: int, rows: int) {
    |b| == cols && forall x :: 0 <= x < |b| ==> |b[x]| == rows
  }

  /** A board of the given size with every cell `v`. */
  function Filled(cols: nat, rows: nat, v: int): (b: Matrix)
    ensures IsBoard(b, cols, rows)
    ensures forall x, y :: 0 <= x < cols && 0 <= y < rows ==> b[x][y] == v
  {
    seq(cols, x => seq(rows, y => v))
  }

  /** The piece cell `(i, j)` exists and is occupied. */
  predicate Covers(shape: Matrix, i: int, j: int) {
    0 <= i < |shape| && 0 <= j < |shape[i]| && shape[i][j] != 0
  }

  /** Every cell of the board is empty or holds a piece value, the only
      values the game ever writes. */
  predicate ValuesInRange(b: Matrix) {
    forall x, y :: 0 <= x < |b| && 0 <= y < |b[x]| ==> 0 <= b[x][y] <= PieceCount
  }

  /** The placement rule: every occupied piece cell `(i, j)` lands on a cell
      `(ox + i, oy + j)` of the board that exists and is empty. */
  predicate CanPlace(b: Matrix, cols: int, rows: int, shape: Matrix, ox: int, oy: int)
    requires IsBoard(b, cols, rows)
  {
    forall i, j :: 0 <= i < |shape| && 0 <= j < |shape[i]| && shape[i][j] != 0 ==>
      0 <= ox + i < cols && 0 <= oy + j < rows && b[ox + i][oy + j] == 0
  }

  /** The board after writing `v` into every cell the piece covers with its
      corner at `(ox, oy)`. */
  function Placed(b: Matrix, shape: Matrix, v: int, ox: int, oy: int): (r: Matrix)
    ensures |r| == |b| && forall x :: 0 <= x < |b| ==> |r[x]| == |b[x]|
  {
    seq(|b|, x requires 0 <= x < |b| =>
      seq(|b[x]|, y requires 0 <= y < |b[x]| => if Covers(shape, x - ox, y - oy) then v else b[x][y]))
  }

  /** Placing writes the value exactly into the covered cells: a cell changes
      iff the piece covers it, and every covered cell lies on the board when
      the placement rule held. */
  lemma PlacedCells(b: Matrix, cols: int, rows: int, shape: Matrix, v: int, ox: int, oy: int)
    requires IsBoard(b, cols, rows)
    ensures IsBoard(Placed(b, shape, v, ox, oy), cols, rows)
    ensures forall x, y :: 0 <= x < cols && 0 <= y < rows ==>
      Placed(b, shape, v, ox, oy)[x][y] == if Covers(shape, x - ox, y - oy) then v else b[x][y]
    ensures CanPlace(b, cols, rows, shape, ox, oy) ==> forall i, j :: Covers(shape, i, j) ==>
      0 <= ox + i < cols && 0 <= oy + j < rows && Placed(b, shape, v, ox, oy)[ox + i][oy + j] == v
  {
  }

  /** Writing a piece value keeps every cell in range. */
  lemma PlacedInRange(b: Matrix, shape: Matrix, v: int, ox: int, oy: int)
    requires ValuesInRange(b) && 1 <= v <= PieceCount
    ensures ValuesInRange(Placed(b, shape, v, ox, oy))
  {
    var p := Placed(b, shape, v, ox, oy);
    forall x, y | 0 <= x < |p| && 0 <= y < |p[x]|
      ensures 0 <= p[x][y] <= PieceCount
    {
      assert p[x][y] == if Covers(shape, x - ox, y - oy) then v else b[x][y];
    }
  }

  /** Once a piece with an occupied cell has been placed with a non-zero value,
      the same placement is refused: its cells are no longer empty. */
  lemma PlacingAgainFails(b: Matrix, cols: int, rows: int, shape: Matrix, v: int, ox: int, oy: int, i: int, j: int)
    requires IsBoard(b, cols, rows) && v != 0
    requires Covers(shape, i, j)
    requires CanPlace(b, cols, rows, shape, ox, oy)
    ensures IsBoard(Placed(b, shape, v, ox, oy), cols, rows)
    ensures !CanPlace(Placed(b, shape, v, ox, oy), cols, rows, shape, ox, oy)
  {
    PlacedCells(b, cols, rows, shape, v, ox, oy);
    assert Placed(b, shape, v, ox, oy)[ox + i][oy + j] == v;
  }

  /** The grid of a piece preview (`PieceBoard.displayPiece`): clearing a 3x3
      grid and playing a valid piece at its centre always succeeds and shows
      exactly the piece's block makeup. */
  lemma PreviewShowsPiece(shape: Matrix, v: int)
    requires Is3x3(shape) && ValuedBy(shape, v)
    ensures CanPlace(Filled(3, 3, 0), 3, 3, shape, JavaDiv(3 - 1, 2) - 3 / 2, JavaDiv(3 - 1, 2) - 3 / 2)
    ensures Placed(Filled(3, 3, 0), shape, v, 0, 0) == shape
  {
    var p := Placed(Filled(3, 3, 0), shape, v, 0, 0);
    PlacedCells(Filled(3, 3, 0), 3, 3, shape, v, 0, 0);
    forall x | 0 <= x < 3
      ensures p[x] == shape[x]
    {
      assert forall y :: 0 <= y < 3 ==> p[x][y] == shape[x][y];
    }
  }

  class Grid {
    const cols: nat
    const rows: nat
    const cells: array2<int>

    ghost predicate Valid() {
      cells.Length0 == cols && cells.Length1 == rows
    }

    /** The values of all cells, `[x][y]`. */
    function Board(): Matrix
      reads this, cells
    {
      Cells(cells)
    }

    /** A grid of the given size with every cell empty. */
    constructor (cols: nat, rows: nat)
      ensures Valid() && fresh(cells)
      ensures this.cols == cols && this.rows == rows
      ensures Board() == Filled(cols, rows, 0) && ValuesInRange(Board())
    {
      this.cols := cols;
      this.rows := rows;
      cells := new int[cols, rows];
      new;
      var y := 0;
      while y < rows
        invariant 0 <= y <= rows
        invariant forall i, j :: 0 <= i < cols && 0 <= j < y ==> cells[i, j] == 0
      {
        var x := 0;
        while x < cols
          invariant 0 <= x <= cols
          invariant forall i, j :: 0 <= i < cols && 0 <= j < rows && (j < y || (j == y && i < x)) ==> cells[i, j] == 0
        {
          cells[x, y] := 0;
          x := x + 1;
        }
        y := y + 1;
      }
      EmptyBoard();
    }

    lemma EmptyBoard()
      requires Valid()
      requires forall i, j :: 0 <= i < cols && 0 <= j < rows ==> cells[i, j] == 0
      ensures Board() == Filled(cols, rows, 0)
    {
      var b := Board();
      var e := Filled(cols, rows, 0);
      forall x | 0 <= x < cols
        ensures b[x] == e[x]
      {
      }
    }

    /** `getGridValue(x, y)`: the value at `(x, y)`, or -1 for a position
        off the grid instead of an exception. */
    function GetGridValue(x: int, y: int): (v: int)
      reads this, cells
      requires Valid()
      ensures 0 <= x < cols && 0 <= y < rows ==> v == Board()[x][y]
      ensures !(0 <= x < cols && 0 <= y < rows) ==> v == -1
    {
      if 0 <= x < cols && 0 <= y < rows then cells[x, y] else -1
    }

    /** On a board whose cells are all in range, -1 comes back exactly for
        the positions off the grid. */
    lemma OffGridSentinel(x: int, y: int)
      requires Valid() && ValuesInRange(Board())
      ensures GetGridValue(x, y) == -1 <==> !(0 <= x < cols && 0 <= y < rows)
    {
      if 0 <= x < cols && 0 <= y < rows {
        assert Board()[x][y] >= 0;
      }
    }

    /** `updateGridValue(x, y, value)`: sets one cell and no other. */
    method UpdateGridValue(x: int, y: int, value: int)
      requires Valid()
      requires 0 <= x < cols && 0 <= y < rows
      modifies cells
      ensures cells[x, y] == value
      ensures forall i, j :: 0 <= i < cols && 0 <= j < rows && (i != x || j != y) ==> cells[i, j] == old(cells[i, j])
    {
      cells[x, y] := value;
    }

    /** `canPlayPiece(piece, x, y)`: whether the piece fits with its corner at
        `(x, y)`; the scan stops at the first occupied piece cell that falls
        off the grid or onto a filled cell. */
    method CanPlayPiece(piece: GamePiece, x: int, y: int) returns (r: bool)
      requires Valid()
      ensures r == CanPlace(Board(), cols, rows, piece.Shape(), x, y)
    {
      var blocks := piece.blocks;
      var xPiece := 0;
      while xPiece < blocks.Length0
        invariant 0 <= xPiece <= blocks.Length0
        invariant forall i, j :: 0 <= i < xPiece && 0 <= j < blocks.Length1 && blocks[i, j] != 0 ==>
          0 <= x + i < cols && 0 <= y + j < rows && cells[x + i, y + j] == 0
      {
        var yPiece := 0;
        while yPiece < blocks.Length1
          invariant 0 <= yPiece <= blocks.Length1
          invariant forall i, j :: 0 <= i < blocks.Length0 && 0 <= j < blocks.Length1 && (i < xPiece || (i == xPiece && j < yPiece)) && blocks[i, j] != 0 ==>
            0 <= x + i < cols && 0 <= y + j < rows && cells[x + i, y + j] == 0
        {
          if blocks[xPiece, yPiece] != 0 {
            var xGrid := x + xPiece;
            var yGrid := y + yPiece;
            if xGrid < 0 || xGrid >= cols || yGrid < 0 || yGrid >= rows {
              assert Covers(piece.Shape(), xPiece, yPiece);
              return false;
            }
            if GetGridValue(xGrid, yGrid) != 0 {
              assert Covers(piece.Shape(), xPiece, yPiece);
              return false;
            }
          }
          yPiece := yPiece + 1;
        }
        xPiece := xPiece + 1;
      }
      return true;
    }

    /** `playPiece(piece, x, y)`: `(x, y)` is the cell under the piece's centre,
        so the corner is `(x - 3/2, y - 3/2)` for a 3x3 piece. When the piece
        fits, its value is written into exactly the covered cells and the
        result is true; otherwise nothing is written and the result is false.
        (The grid's cells and a piece's blocks are arrays of different types
        in the source, so they are never the same array.) */
    method PlayPiece(piece: GamePiece, x: int, y: int) returns (r: bool)
      requires Valid()
      requires piece.blocks != cells && piece.blocks.Length0 > 0
      modifies cells
      ensures r == CanPlace(old(Board()), cols, rows, piece.Shape(),
                            x - piece.blocks.Length0 / 2, y - piece.blocks.Length1 / 2)
      ensures Board() == if r then Placed(old(Board()), piece.Shape(), piece.value,
                                          x - piece.blocks.Length0 / 2, y - piece.blocks.Length1 / 2)
                         else old(Board())
    {
      var ox := x - piece.blocks.Length0 / 2;
      var oy := y - piece.blocks.Length1 / 2;
      var fits := CanPlayPiece(piece, ox, oy);
      if !fits {
        return false;
      }
      WritePiece(piece, ox, oy);
      return true;
    }

    /** The writing half of `playPiece`: every occupied block of the piece
        sets its grid cell to the piece's value. */
    method WritePiece(piece: GamePiece, ox: int, oy: int)
      requires Valid() && piece.blocks != cells
      requires CanPlace(Board(), cols, rows, piece.Shape(), ox, oy)
      modifies cells
      ensures Board() == Placed(old(Board()), piece.Shape(), piece.value, ox, oy)
    {
      ghost var before := Board();
      ghost var shape := piece.Shape();
      var xPiece := 0;
      while xPiece < piece.blocks.Length0
        invariant 0 <= xPiece <= piece.blocks.Length0
        invariant forall gx, gy :: 0 <= gx < cols && 0 <= gy < rows ==>
          cells[gx, gy] == if Covers(shape, gx - ox, gy - oy) && gx - ox < xPiece then piece.value else before[gx][gy]
      {
        WriteColumn(piece, ox, oy, xPiece);
        xPiece := xPiece + 1;
      }
      PlacedCells(before, cols, rows, shape, piece.value, ox, oy);
      SameBoard(Placed(before, shape, piece.value, ox, oy));
    }

    /** One column of the piece written onto the grid. */
    method WriteColumn(piece: GamePiece, ox: int, oy: int, xPiece: int)
      requires Valid() && piece.blocks != cells && 0 <= xPiece < piece.blocks.Length0
      requires forall j :: 0 <= j < piece.blocks.Length1 && piece.blocks[xPiece, j] != 0 ==>
        0 <= ox + xPiece < cols && 0 <= oy + j < rows
      modifies cells
      ensures forall gx, gy :: 0 <= gx < cols && 0 <= gy < rows ==>
        cells[gx, gy] == if gx == ox + xPiece && 0 <= gy - oy < piece.blocks.Length1 && piece.blocks[xPiece, gy - oy] != 0
                         then piece.value else old(cells[gx, gy])
    {
      var yPiece := 0;
      while yPiece < piece.blocks.Length1
        invariant 0 <= yPiece <= piece.blocks.Length1
        invariant forall gx, gy :: 0 <= gx < cols && 0 <= gy < rows ==>
          cells[gx, gy] == if gx == ox + xPiece && 0 <= gy - oy < yPiece && piece.blocks[xPiece, gy - oy] != 0
                           then piece.value else old(cells[gx, gy])
      {
        if piece.blocks[xPiece, yPiece] != 0 {
          var xGrid := ox + xPiece;
          var yGrid := oy + yPiece;
          UpdateGridValue(xGrid, yGrid, piece.value);
        }
        yPiece := yPiece + 1;
      }
    }

    lemma SameBoard(b: Matrix)
      requires Valid() && IsBoard(b, cols, rows)
      requires forall x, y :: 0 <= x < cols && 0 <= y < rows ==> cells[x, y] == b[x][y]
      ensures Board() == b
    {
      var c := Board();
      forall x | 0 <= x < cols
        ensures c[x] == b[x]
      {
      }
    }

    /** `clearGrid()`: every cell becomes empty, so clearing twice is the same
        as clearing once. */
    method ClearGrid()
      requires Valid()
      modifies cells
      ensures Board() == Filled(cols, rows, 0) && ValuesInRange(Board())
    {
      var y := 0;
      while y < rows
        invariant 0 <= y <= rows
        invariant forall i, j :: 0 <= i < cols && 0 <= j < y ==> cells[i, j] == 0
      {
        var x := 0;
        while x < cols
          invariant 0 <= x <= cols
          invariant forall i, j :: 0 <= i < cols && 0 <= j < rows && (j < y || (j == y && i < x)) ==> cells[i, j] == 0
        {
          UpdateGridValue(x, y, 0);
          x := x + 1;
        }
        y := y + 1;
      }
      EmptyBoard();
    }

    /** `getGridCentre()`: the middle row index as `x` and the middle column
        index as `y`, rounding down; on a grid with no rows or no columns the
        truncating division gives 0 rather than -1. */
    function GetGridCentre(): (c: Coordinate)
      reads this
      ensures rows >= 1 ==> 0 <= c.x < rows && c.x * 2 <= rows - 1 <= c.x * 2 + 1
      ensures cols >= 1 ==> 0 <= c.y < cols && c.y * 2 <= cols - 1 <= c.y * 2 + 1
      ensures rows == 0 ==> c.x == 0
      ensures cols == 0 ==> c.y == 0
    {
      Coordinate(JavaDiv(rows - 1, 2), JavaDiv(cols - 1, 2))
    }
  }
}
