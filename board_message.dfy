/** The `BOARD` message a multiplayer game sends after every placement
    (java/uk/ac/soton/comp1206/game/MultiplayerGame.java): the word `BOARD`
    followed by one space-separated decimal value per cell, row by row (`y`
    outer, `x` inner). The decoder is the reading an opponent's board view
    gives it: the round trip proves the format loses nothing. */
module BoardMessages {
  import opened Outcomes
  import opened JavaText
  import opened Pieces
  import opened Grids

  /** The values of row `y`, columns `0 .. n-1`, as text. */
  function RowTokens(b: Matrix, cols: nat, rows: nat, y: int, n: nat): (t: seq<string>)
    requires IsBoard(b, cols, rows) && 0 <= y < rows && n <= cols
    ensures |t| == n && forall x :: 0 <= x < n ==> t[x] == IntToString(b[x][y])
  {
    seq(n, x requires 0 <= x < n => IntToString(b[x][y]))
  }

  lemma RowTokensSnoc(b: Matrix, cols: nat, rows: nat, y: int, x: nat)
    requires IsBoard(b, cols, rows) && 0 <= y < rows && x < cols
    ensures RowTokens(b, cols, rows, y, x + 1) == RowTokens(b, cols, rows, y, x) + [IntToString(b[x][y])]
  {
  }

  /** The values of rows `0 .. k-1` as text, row by row. */
  function BoardTokens(b: Matrix, cols: nat, rows: nat, k: nat): (t: seq<string>)
    requires IsBoard(b, cols, rows) && k <= rows
    decreases k
  {
    if k == 0 then [] else BoardTokens(b, cols, rows, k - 1) + RowTokens(b, cols, rows, k - 1, cols)
  }

  /** No token is empty or contains a space. */
  lemma {:induction false} TokensAreWords(b: Matrix, cols: nat, rows: nat, k: nat)
    requires IsBoard(b, cols, rows) && k <= rows
    ensures forall i :: 0 <= i < |BoardTokens(b, cols, rows, k)| ==>
      ' ' !in BoardTokens(b, cols, rows, k)[i] && BoardTokens(b, cols, rows, k)[i] != ""
    decreases k
  {
    if k > 0 {
      TokensAreWords(b, cols, rows, k - 1);
      var row := RowTokens(b, cols, rows, k - 1, cols);
      forall x | 0 <= x < cols
        ensures ' ' !in row[x] && row[x] != ""
      {
        IntToStringHasNoSeparator(b[x][k - 1], ' ');
      }
    }
  }

  /** Rows `0 .. k-1` of the board as lists of values, `[y][x]`. */
  function RowMajor(b: Matrix, cols: nat, rows: nat, k: nat): (m: seq<seq<int>>)
    requires IsBoard(b, cols, rows) && k <= rows
    ensures |m| == k && forall y :: 0 <= y < k ==> |m[y]| == cols
  {
    seq(k, y requires 0 <= y < k => RowValues(b, cols, rows, y))
  }

  /** A `[y][x]` list of rows turned back into a `[x][y]` board. */
  function Transposed(m: seq<seq<int>>, cols: nat, rows: nat): (b: Matrix)
    requires |m| == rows && forall y :: 0 <= y < rows ==> |m[y]| == cols
    ensures IsBoard(b, cols, rows)
  {
    seq(cols, x requires 0 <= x < cols => seq(rows, y requires 0 <= y < rows => m[y][x]))
  }

  /** Each token preceded by a space. */
  function Spaced(tokens: seq<string>): string {
    if tokens == [] then "" else " " + tokens[0] + Spaced(tokens[1..])
  }

  lemma {:induction false} SpacedSnoc(tokens: seq<string>, t: string)
    ensures Spaced(tokens + [t]) == Spaced(tokens) + " " + t
    decreases |tokens|
  {
    if tokens != [] {
      assert (tokens + [t])[1..] == tokens[1..] + [t];
      SpacedSnoc(tokens[1..], t);
    } else {
      assert [t][1..] == [];
    }
  }

  lemma {:induction false} SpacedAsJoin(head: string, tokens: seq<string>)
    ensures head + Spaced(tokens) == Join([head] + tokens, ' ')
    decreases |tokens|
  {
    if tokens != [] {
      SpacedAsJoin(tokens[0], tokens[1..]);
      assert ([head] + tokens)[1..] == [tokens[0]] + tokens[1..];
      assert [tokens[0]] + tokens[1..] == tokens;
    }
  }

  /** The message for board `b`. */
  function BoardMessage(b: Matrix, cols: nat, rows: nat): string
    requires IsBoard(b, cols, rows)
  {
    "BOARD" + Spaced(BoardTokens(b, cols, rows, rows))
  }

  /** Each token as an `int`, or `None` if one of them is not one. */
  function ParseRow(tokens: seq<string>): (r: Option<seq<int>>)
    ensures r.Some? ==> |r.value| == |tokens|
  {
    if tokens == [] then Some([])
    else
      var first := ParseInt(tokens[0]);
      var rest := ParseRow(tokens[1..]);
      if first.None? || rest.None? then None else Some([first.value] + rest.value)
  }

  /** Tokens that each read as the matching value read as the whole row. */
  lemma {:induction false} ParseRowOfValues(tokens: seq<string>, values: seq<int>)
    requires |tokens| == |values|
    requires forall i :: 0 <= i < |tokens| ==> ParseInt(tokens[i]) == Some(values[i])
    ensures ParseRow(tokens) == Some(values)
    decreases |tokens|
  {
    if tokens != [] {
      ParseRowOfValues(tokens[1..], values[1..]);
      assert [values[0]] + values[1..] == values;
    }
  }

  /** Cuts the tokens into `rows` rows of `cols` values, the last row last. */
  function DecodeRows(tokens: seq<string>, cols: nat, rows: nat): (r: Option<seq<seq<int>>>)
    ensures r.Some? ==> |r.value| == rows && forall y :: 0 <= y < rows ==> |r.value[y]| == cols
    decreases rows
  {
    if rows == 0 then (if tokens == [] then Some([]) else None)
    else if |tokens| < cols then None
    else
      var split := |tokens| - cols;
      var front := DecodeRows(tokens[..split], cols, rows - 1);
      var last := ParseRow(tokens[split..]);
      if front.None? || last.None? then None else Some(front.value + [last.value])
  }

  /** Reads a `BOARD` message for a `cols` by `rows` board: the word, then
      exactly one `int` per cell in row-major order; anything else is `None`. */
  function ParseBoardMessage(msg: string, cols: nat, rows: nat): (r: Option<Matrix>)
    ensures r.Some? ==> IsBoard(r.value, cols, rows)
  {
    var parts := Split(msg, ' ');
    if |parts| == 0 || parts[0] != "BOARD" then None
    else
      var cells := DecodeRows(parts[1..], cols, rows);
      if cells.None? then None else Some(Transposed(cells.value, cols, rows))
  }

  /** Row `y` of the board as a list of values. */
  function RowValues(b: Matrix, cols: nat, rows: nat, y: int): (r: seq<int>)
    requires IsBoard(b, cols, rows) && 0 <= y < rows
    ensures |r| == cols && forall x :: 0 <= x < cols ==> r[x] == b[x][y]
  {
    seq(cols, x requires 0 <= x < cols => b[x][y])
  }

  lemma ParseRowTokens(b: Matrix, cols: nat, rows: nat, y: int)
    requires IsBoard(b, cols, rows) && 0 <= y < rows
    requires forall x :: 0 <= x < cols ==> InIntRange(b[x][y])
    ensures ParseRow(RowTokens(b, cols, rows, y, cols)) == Some(RowValues(b, cols, rows, y))
  {
    var row := RowTokens(b, cols, rows, y, cols);
    var values := RowValues(b, cols, rows, y);
    forall x | 0 <= x < cols
      ensures ParseInt(row[x]) == Some(values[x])
    {
      ParseIntToString(b[x][y]);
    }
    ParseRowOfValues(row, values);
  }

  /** A decoded prefix followed by one readable row decodes to one more row. */
  lemma DecodeRowsSnoc(front: seq<string>, row: seq<string>, cols: nat, rows: nat, prev: seq<seq<int>>, values: seq<int>)
    requires |row| == cols
    requires DecodeRows(front, cols, rows) == Some(prev)
    requires ParseRow(row) == Some(values)
    ensures DecodeRows(front + row, cols, rows + 1) == Some(prev + [values])
  {
    var tokens := front + row;
    assert tokens[..|front|] == front;
    assert tokens[|front|..] == row;
  }

  /** The rows of tokens one after the other, the last row last. */
  function Flatten(rs: seq<seq<string>>): seq<string> {
    if rs == [] then [] else Flatten(rs[..|rs| - 1]) + rs[|rs| - 1]
  }

  /** A non-empty list is its front followed by its last element. */
  lemma FrontAndLast<T>(s: seq<T>)
    requires s != []
    ensures s[..|s| - 1] + [s[|s| - 1]] == s
  {
  }

  /** Rows of `cols` tokens that each read as a row of values decode to those
      rows. */
  lemma {:induction false} DecodeFlatten(rs: seq<seq<string>>, values: seq<seq<int>>, cols: nat)
    requires |rs| == |values|
    requires forall y :: 0 <= y < |rs| ==> |rs[y]| == cols && ParseRow(rs[y]) == Some(values[y])
    ensures DecodeRows(Flatten(rs), cols, |rs|) == Some(values)
    decreases |rs|
  {
    if rs != [] {
      var n := |rs| - 1;
      var front, prev := rs[..n], values[..n];
      forall y | 0 <= y < n
        ensures |front[y]| == cols && ParseRow(front[y]) == Some(prev[y])
      {
        assert front[y] == rs[y] && prev[y] == values[y];
      }
      DecodeFlatten(front, prev, cols);
      assert Flatten(rs) == Flatten(front) + rs[n];
      DecodeRowsSnoc(Flatten(front), rs[n], cols, n, prev, values[n]);
      FrontAndLast(values);
    }
  }

  /** The text rows of the board, `[y][x]`. */
  function TokenRows(b: Matrix, cols: nat, rows: nat, k: nat): (rs: seq<seq<string>>)
    requires IsBoard(b, cols, rows) && k <= rows
    ensures |rs| == k && forall y :: 0 <= y < k ==> rs[y] == RowTokens(b, cols, rows, y, cols)
  {
    seq(k, y requires 0 <= y < k => RowTokens(b, cols, rows, y, cols))
  }

  lemma {:induction false} BoardTokensFlatten(b: Matrix, cols: nat, rows: nat, k: nat)
    requires IsBoard(b, cols, rows) && k <= rows
    ensures BoardTokens(b, cols, rows, k) == Flatten(TokenRows(b, cols, rows, k))
    decreases k
  {
    if k > 0 {
      BoardTokensFlatten(b, cols, rows, k - 1);
      assert TokenRows(b, cols, rows, k)[..k - 1] == TokenRows(b, cols, rows, k - 1);
    }
  }

  lemma EveryRowParses(b: Matrix, cols: nat, rows: nat)
    requires IsBoard(b, cols, rows)
    requires forall x, y :: 0 <= x < cols && 0 <= y < rows ==> InIntRange(b[x][y])
    ensures forall y :: 0 <= y < rows ==>
      ParseRow(TokenRows(b, cols, rows, rows)[y]) == Some(RowMajor(b, cols, rows, rows)[y])
  {
    forall y | 0 <= y < rows
      ensures ParseRow(TokenRows(b, cols, rows, rows)[y]) == Some(RowMajor(b, cols, rows, rows)[y])
    {
      ParseRowTokens(b, cols, rows, y);
    }
  }

  /** The cell tokens of the message decode to the board's rows. */
  lemma DecodeBoardTokens(b: Matrix, cols: nat, rows: nat)
    requires IsBoard(b, cols, rows)
    requires forall x, y :: 0 <= x < cols && 0 <= y < rows ==> InIntRange(b[x][y])
    ensures DecodeRows(BoardTokens(b, cols, rows, rows), cols, rows) == Some(RowMajor(b, cols, rows, rows))
  {
    EveryRowParses(b, cols, rows);
    DecodeFlatten(TokenRows(b, cols, rows, rows), RowMajor(b, cols, rows, rows), cols);
    BoardTokensFlatten(b, cols, rows, rows);
  }

  /** The message splits on spaces into the word and the cell tokens. */
  lemma SplitBoardMessage(b: Matrix, cols: nat, rows: nat)
    requires IsBoard(b, cols, rows)
    ensures Split(BoardMessage(b, cols, rows), ' ') == ["BOARD"] + BoardTokens(b, cols, rows, rows)
  {
    var tokens := BoardTokens(b, cols, rows, rows);
    var parts := ["BOARD"] + tokens;
    SpacedAsJoin("BOARD", tokens);
    TokensAreWords(b, cols, rows, rows);
    assert forall i :: 1 <= i < |parts| ==> parts[i] == tokens[i - 1];
    SplitOfJoin(parts, ' ');
  }

  lemma TransposedRowMajor(b: Matrix, cols: nat, rows: nat)
    requires IsBoard(b, cols, rows)
    ensures Transposed(RowMajor(b, cols, rows, rows), cols, rows) == b
  {
    var t := Transposed(RowMajor(b, cols, rows, rows), cols, rows);
    forall x | 0 <= x < cols
      ensures t[x] == b[x]
    {
    }
  }

  /** Decoding the message of a board gives the board back, provided every
      cell holds an `int` value. */
  lemma ParseBoardOfMessage(b: Matrix, cols: nat, rows: nat)
    requires IsBoard(b, cols, rows)
    requires forall x, y :: 0 <= x < cols && 0 <= y < rows ==> InIntRange(b[x][y])
    ensures ParseBoardMessage(BoardMessage(b, cols, rows), cols, rows) == Some(b)
  {
    var tokens := BoardTokens(b, cols, rows, rows);
    var parts := ["BOARD"] + tokens;
    SplitBoardMessage(b, cols, rows);
    assert parts[1..] == tokens;
    DecodeBoardTokens(b, cols, rows);
    TransposedRowMajor(b, cols, rows);
  }

  lemma {:induction false} SpacedAppend(front: seq<string>, back: seq<string>)
    ensures Spaced(front + back) == Spaced(front) + Spaced(back)
    decreases |front|
  {
    if front != [] {
      SpacedAppend(front[1..], back);
      assert (front + back)[1..] == front[1..] + back;
    } else {
      assert front + back == back;
    }
  }

  /** Regrouping the text of the message. */
  lemma AppendAssociates(a: string, b: string, c: string)
    ensures (a + b) + c == a + (b + c)
  {
  }

  /** Regrouping the text of a row. */
  lemma AppendAssociates4(a: string, b: string, c: string, d: string)
    ensures ((a + b) + c) + d == a + ((b + c) + d)
  {
  }

  /** The inner loop of `sendUpdatedBoardToServer`: row `y`'s values, each
      read through `getGridValue` and written after a space. */
  method AppendRow(grid: Grid, ghost b: Matrix, y: nat, prefix: string) returns (msg: string)
    requires grid.Valid() && b == grid.Board() && y < grid.rows
    ensures msg == prefix + Spaced(RowTokens(b, grid.cols, grid.rows, y, grid.cols))
  {
    msg := prefix;
    var x := 0;
    while x < grid.cols
      invariant 0 <= x <= grid.cols
      invariant msg == prefix + Spaced(RowTokens(b, grid.cols, grid.rows, y, x))
    {
      var value := grid.GetGridValue(x, y);
      RowTokensSnoc(b, grid.cols, grid.rows, y, x);
      SpacedSnoc(RowTokens(b, grid.cols, grid.rows, y, x), IntToString(value));
      AppendAssociates4(prefix, Spaced(RowTokens(b, grid.cols, grid.rows, y, x)), " ", IntToString(value));
      msg := msg + " " + IntToString(value);
      x := x + 1;
    }
  }

  /** `sendUpdatedBoardToServer`'s message: the text is built row by row,
      cell by cell. */
  method BuildBoardMessage(grid: Grid) returns (msg: string)
    requires grid.Valid()
    ensures msg == BoardMessage(grid.Board(), grid.cols, grid.rows)
  {
    ghost var b := grid.Board();
    msg := "BOARD";
    var y := 0;
    while y < grid.rows
      invariant 0 <= y <= grid.rows
      invariant msg == "BOARD" + Spaced(BoardTokens(b, grid.cols, grid.rows, y))
    {
      ghost var done := BoardTokens(b, grid.cols, grid.rows, y);
      ghost var row := RowTokens(b, grid.cols, grid.rows, y, grid.cols);
      SpacedAppend(done, row);
      AppendAssociates("BOARD", Spaced(done), Spaced(row));
      msg := AppendRow(grid, b, y, msg);
      y := y + 1;
    }
  }
}
