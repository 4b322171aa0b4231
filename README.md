# TetrECS game model in Dafny

TetrECS is a grid-placement puzzle game with no gravity. The player places
3x3 pieces on a board of `cols x rows` cells. A full row or column is
cleared and scores points. A timer takes a life each time it runs out
before a piece is placed. In the multiplayer variant, pieces come from the
server, and lives, board and departure are reported back to it. Around the
engine sit small text protocols:

- the local and online high-score lists (`name:score` lines);
- the multiplayer leaderboard (`name:score:lives` lines);
- the lobby chat (`/nick` commands and `MSG name:text` lines).

This project models that core and proves what it promises. Each Java file
keeps its own form.

- **`outcomes.dfy` (`Outcomes`)**
  - The Java exceptions that can escape, as a datatype.
  - `Result` and `Option`, and the `Status` of a `void` method that may
    throw.
- **`java_text.dfy` (`JavaText`)**
  - The parts of `java.lang.String` the protocols rely on:
    - `split` on one character, dropping trailing empty strings;
    - `Integer.parseInt` and `Integer.toString`;
    - `strip`;
    - reading a text as lines, and writing lines each followed by a
      newline.
  - The inverse laws between these operations.
- **`game_piece.dfy` (`Pieces`)**
  - The catalogue of fifteen shapes, with the shared arrays held in a
    `PieceTable` object.
  - `GamePiece` is a class.
    - Its constructor stamps the piece's value into the catalogue's own
      array.
    - `rotate()` allocates a new array holding the quarter turn.
- **`grid.dfy` (`Grids`)**
  - The board, a class over a two-dimensional array indexed `[x][y]`.
  - Reads out of bounds give -1.
  - `canPlayPiece` is a scan loop. `playPiece` centres the piece, checks,
    then writes.
  - `clearGrid` and `getGridCentre`.
- **`lines.dfy` (`Lines`)** and **`line_scan.dfy` (`LineScan`)**
  - `Lines`: what a full row or column is, the de-duplicated set of cells
    to clear, and the scoring formula.
  - `LineScan`: the nested counting loops of `afterPiecePlayed`, proved to
    compute exactly the functions in `Lines`.
- **`board_message.dfy` (`BoardMessages`)**
  - The `BOARD` message, built by a loop as `sendUpdatedBoardToServer`
    builds it.
  - A parser, and the proof that parsing the message gives back the board.
- **`game_rules.dfy` (`GameRules`)**
  - Level, multiplier and timer delay.
  - The `PIECE n` and `LIVES n` messages.
- **`game.dfy` (`Games`)**
  - The engine, one `Game` class for `Game` and `MultiplayerGame`, with a
    `multiplayer` flag selecting the overridden methods.
  - Timer expiry is the `Tick` method. The scheduler's state is a field.
  - The random generator is an injected function of the number of pieces
    drawn.
  - Listener calls are appended to an `events` log.
  - Messages to the server are appended to an `outbox`. Messages from the
    server are method calls.
  - Java exceptions that escape become a `Status`. The writes done before
    the throw are kept.
  - The invariant `Valid` keeps the figures consistent, lives non-negative
    while the scheduler runs, and every cell of the grid empty or holding a
    piece value (0..15).
- **`ranking.dfy` (`Ranking`)**
  - `List.sort` with a reversed score comparator (a stable descending
    sort), and `subList(0, min(n, size))`.
- **`scores_scene.dfy` (`ScoresScreen`)**
  - The end-of-game score screen: parsing, the new-high-score test,
    writing and reading the local score file, ranking and truncation.
- **`multiplayer_scene.dfy` (`MultiplayerLeaderboard`)**
  - The leaderboard of the multiplayer game screen.
- **`chat_window.dfy` (`ChatCommands`)**
  - The chat command rewriting and the display of received messages.

## Model

| member | source | states |
|---|---|---|
| JavaText.Split | java/uk/ac/soton/comp1206/scene/ScoresScene.java:383 | `String.split` on one character. No part holds the delimiter. A string without the delimiter is one part. Trailing empty parts are dropped. |
| JavaText.SplitOfJoin | java/uk/ac/soton/comp1206/scene/ScoresScene.java:388 | Splitting the join of delimiter-free parts, the last not empty, gives back exactly those parts. |
| JavaText.FieldsOfJoin | java/uk/ac/soton/comp1206/scene/ScoresScene.java:388 | Before trailing empties are dropped, splitting a join gives back every part, empty ones included. |
| JavaText.ReadLines | java/uk/ac/soton/comp1206/scene/ScoresScene.java:293 | No line that `readLine` returns holds a line terminator. |
| JavaText.IntToString | java/uk/ac/soton/comp1206/scene/ScoresScene.java:350 | The decimal text of an `int` has at least one character; `ParseIntToString` proves `parseInt` reads it back. |
| JavaText.ReadWrittenLines | java/uk/ac/soton/comp1206/scene/ScoresScene.java:349-352 | Reading back with `readLine` what `write` plus `newLine` wrote, line by line, gives the same lines when none holds a newline. |
| JavaText.ParsedLinesAppend | java/uk/ac/soton/comp1206/scene/ScoresScene.java:387-397 | Collecting the lines that parse is a homomorphism over concatenation of the line lists. |
| JavaText.ParseInt | java/uk/ac/soton/comp1206/scene/ScoresScene.java:393 | `Integer.parseInt` over ASCII digits. A result is always within the 32-bit range and comes from text starting with a digit or a sign. |
| JavaText.ParseIntToString | java/uk/ac/soton/comp1206/scene/ScoresScene.java:393 | `parseInt` of the decimal text of any `int` gives back that `int`. |
| JavaText.NatToString | java/uk/ac/soton/comp1206/scene/ScoresScene.java:350 | The decimal text of a natural number is all digits, has no leading zero unless it is 0, and denotes the number. |
| JavaText.Strip | java/uk/ac/soton/comp1206/component/ChatWindow.java:177 | `String.strip`. The result is a contiguous slice of the input. Only Java white space is removed around it, and it neither starts nor ends with white space. |
| JavaText.StripIdempotent | java/uk/ac/soton/comp1206/component/ChatWindow.java:177 | Stripping twice is stripping once. |
| Pieces.CatalogueShape | java/uk/ac/soton/comp1206/game/GamePiece.java:19-54 | The catalogue has 15 entries. Entry `k` has value `k + 1`, a 3x3 shape of 0s and 1s, and at least one occupied cell. |
| Pieces.StampValues | java/uk/ac/soton/comp1206/game/GamePiece.java:109-114 | After stamping, every cell is 0 or the piece's value. Cells are non-zero exactly where the shape is. |
| Pieces.StampIdempotent | java/uk/ac/soton/comp1206/game/GamePiece.java:111-112 | Stamping an already stamped array with the same value changes nothing. |
| Pieces.GamePiece.constructor | java/uk/ac/soton/comp1206/game/GamePiece.java:103-115 | The piece keeps the given array, name and value. The array's new contents are the old ones stamped with the value. |
| Pieces.GamePiece.GetValueAtCoordinate | java/uk/ac/soton/comp1206/game/GamePiece.java:137-139 | A cell of a well-formed piece reads 0 or the piece's value. |
| Pieces.RotatedOf3x3 | java/uk/ac/soton/comp1206/game/GamePiece.java:154-169 | A quarter turn maps `blocks[i][j]` to `rotated[2-j][i]`, cell by cell. |
| Pieces.GamePiece.Rotate | java/uk/ac/soton/comp1206/game/GamePiece.java:154-169 | `rotate()` installs a fresh 3x3 array holding the quarter turn. The number of occupied cells is kept, and so is the 0-or-value form. |
| Pieces.FillQuarterTurn | java/uk/ac/soton/comp1206/game/GamePiece.java:155-166 | The nine assignments fill the new array with the quarter turn of the old one. |
| Pieces.GamePiece.RotateTimes | java/uk/ac/soton/comp1206/game/GamePiece.java:145-149 | `rotate(k)` is `k` quarter turns, and none for `k <= 0`. The array is the old one or fresh. |
| Pieces.FourRotationsIdentity | java/uk/ac/soton/comp1206/game/GamePiece.java:154-169 | Four quarter turns restore the original block makeup. |
| Pieces.RotationsModFour | java/uk/ac/soton/comp1206/game/GamePiece.java:145-149 | `k` quarter turns equal `k mod 4` quarter turns. |
| Pieces.RotationsAdd | java/uk/ac/soton/comp1206/game/GamePiece.java:145-149 | `a` turns followed by `b` turns are `a + b` turns. |
| Pieces.HalfTurn | java/uk/ac/soton/comp1206/game/GamePiece.java:154-169 | Two quarter turns are the point reflection `m[2-i][2-j]`. |
| Pieces.RotatedOccupied | java/uk/ac/soton/comp1206/game/GamePiece.java:154-169 | A quarter turn keeps the number of occupied cells. |
| Pieces.RotationsValuedBy | java/uk/ac/soton/comp1206/game/GamePiece.java:145-169 | Any number of turns keeps every cell 0 or the piece's value. |
| Pieces.PieceTable.constructor | java/uk/ac/soton/comp1206/game/GamePiece.java:40-58 | The catalogue's arrays are fresh, distinct, 3x3 and hold the declared shapes. |
| Pieces.CreatePiece | java/uk/ac/soton/comp1206/game/GamePiece.java:66-115 | `createPiece(n)` succeeds iff `0 <= n < 15` and otherwise throws IndexOutOfBounds. The new piece shares the catalogue's array and has the entry's name and value `n + 1`. An intact table stays intact, and the piece's makeup is always the stamped catalogue shape, whatever earlier creations did. |
| Pieces.StampKeepsIntact | java/uk/ac/soton/comp1206/game/GamePiece.java:109-114 | Stamping one entry's shared array with its own value leaves the whole table giving the same pieces. |
| Pieces.CreateRotatedPiece | java/uk/ac/soton/comp1206/game/GamePiece.java:89-94 | `createPiece(n, r)` is `createPiece(n)` turned `r` times, with the same error case. |
| Pieces.CreateTwice | java/uk/ac/soton/comp1206/game/GamePiece.java:66-115 | Two pieces of one number are distinct objects on one shared array and have identical makeup. |
| Grids.JavaDiv | java/uk/ac/soton/comp1206/game/Grid.java:200-201 | Java's `/` truncates toward zero, and agrees with Euclidean division on non-negative operands. |
| Grids.Filled | java/uk/ac/soton/comp1206/game/Grid.java:44-57 | A board of the given size with every cell the given value. |
| Grids.PlacedCells | java/uk/ac/soton/comp1206/game/Grid.java:144-155 | After a placement, each cell holds the value where the piece covers it and its old value elsewhere. A legal placement writes the value on every covered cell. |
| Grids.PlacingAgainFails | java/uk/ac/soton/comp1206/game/Grid.java:117-152 | After a legal placement of a non-empty piece with a non-zero value, the same placement is no longer legal. |
| Grids.PreviewShowsPiece | java/uk/ac/soton/comp1206/game/Grid.java:199-212 | On an empty 3x3 board, centring a piece on the centre cell is legal and the board then shows exactly the piece. |
| Grids.Grid.constructor | java/uk/ac/soton/comp1206/game/Grid.java:44-57 | A new grid has the given size and every cell 0. |
| Grids.Grid.GetGridValue | java/uk/ac/soton/comp1206/game/Grid.java:85-93 | In bounds it reads the stored value. For any negative or too-large index it gives -1. |
| Grids.Grid.OffGridSentinel | java/uk/ac/soton/comp1206/game/Grid.java:85-93 | On a board whose values all lie in 0..15, -1 is read exactly off the grid. |
| Grids.PlacedInRange | java/uk/ac/soton/comp1206/game/Grid.java:144-155 | Writing a piece value in 1..15 on the covered cells keeps every cell in 0..15. |
| Grids.Grid.UpdateGridValue | java/uk/ac/soton/comp1206/game/Grid.java:75-77 | Only cell `(x, y)` changes, and it takes the value. |
| Grids.Grid.CanPlayPiece | java/uk/ac/soton/comp1206/game/Grid.java:102-126 | True iff every occupied piece cell `(i, j)` lands on an in-bounds, empty grid cell `(x+i, y+j)`. |
| Grids.Grid.PlayPiece | java/uk/ac/soton/comp1206/game/Grid.java:135-161 | The origin is shifted by half the piece's size. The result is the placement rule at that origin. On success exactly the covered cells take the piece's value. On failure the board is unchanged. |
| Grids.Grid.WritePiece | java/uk/ac/soton/comp1206/game/Grid.java:144-155 | The write loop of a legal placement gives the placed board. |
| Grids.Grid.ClearGrid | java/uk/ac/soton/comp1206/game/Grid.java:206-212 | Every cell becomes 0, so clearing twice is clearing once. |
| Grids.Grid.GetGridCentre | java/uk/ac/soton/comp1206/game/Grid.java:199-204 | The centre is `((rows-1)/2, (cols-1)/2)`, characterised by bounds and not by the formula. |
| Lines.ClearedCells | java/uk/ac/soton/comp1206/game/Game.java:281-314 | The cells to clear all lie on the board. |
| Lines.ClearedInRange | java/uk/ac/soton/comp1206/game/Game.java:316-318 | Emptying cells keeps every cell in 0..15. |
| Lines.ClearedMember | java/uk/ac/soton/comp1206/game/Game.java:281-314 | A cell is cleared iff it is on the board and its row or its column is full. |
| Lines.ClearedCellsGathered | java/uk/ac/soton/comp1206/game/Game.java:281-314 | The set to clear is the union of the cells of the full rows and of the full columns. |
| Lines.ScoreGain | java/uk/ac/soton/comp1206/game/Game.java:336-339 | The gain is never negative for non-negative inputs, and it is 0 with no line or no block. |
| Lines.ClearingLeavesNoLine | java/uk/ac/soton/comp1206/game/Game.java:316-318 | After clearing, no row or column of a non-empty board is full. |
| Lines.LinesHaveCells | java/uk/ac/soton/comp1206/game/Game.java:281-318 | A full line on a non-empty board means there are cells to clear. |
| Lines.SingleRowCleared | java/uk/ac/soton/comp1206/game/Game.java:281-318 | With exactly one full row and no full column, one line is counted and exactly that row's `cols` cells are cleared. |
| Lines.CrossCells | java/uk/ac/soton/comp1206/game/Game.java:281-318 | With exactly one full row and one full column, the cleared set is their union. |
| Lines.RowAndColumnCleared | java/uk/ac/soton/comp1206/game/Game.java:281-318 | A full row and a full column count as 2 lines. Their shared cell is cleared once: `cols + rows - 1` blocks. |
| Lines.CrossSize | java/uk/ac/soton/comp1206/game/Game.java:299-314 | A row and a column of a board share exactly one cell. |
| Lines.CrossOnFiveByFive | java/uk/ac/soton/comp1206/game/Game.java:321-339 | A crossing row and column on a 5x5 board at multiplier 1 score 2 x 9 x 10 = 180. |
| Lines.RowCells | java/uk/ac/soton/comp1206/game/Game.java:290-293 | The cells of a row: exactly `n` coordinates with that `y`. |
| Lines.ColCells | java/uk/ac/soton/comp1206/game/Game.java:308-311 | The cells of a column: exactly `n` coordinates with that `x`. |
| LineScan.RowIsFull | java/uk/ac/soton/comp1206/game/Game.java:282-288 | The counting loop over a row answers exactly whether the row is full. |
| LineScan.ColIsFull | java/uk/ac/soton/comp1206/game/Game.java:300-306 | The counting loop over a column answers exactly whether the column is full. |
| LineScan.AddRowCells | java/uk/ac/soton/comp1206/game/Game.java:290-293 | The loop adds exactly the row's cells to the set. |
| LineScan.AddColCells | java/uk/ac/soton/comp1206/game/Game.java:308-311 | The loop adds exactly the column's cells to the set. |
| LineScan.ScanRows | java/uk/ac/soton/comp1206/game/Game.java:281-296 | The row loop collects exactly the cells of the full rows and counts them. |
| LineScan.ScanCols | java/uk/ac/soton/comp1206/game/Game.java:299-314 | The column loop adds exactly the cells of the full columns and counts them. |
| LineScan.ScanLines | java/uk/ac/soton/comp1206/game/Game.java:281-314 | Both loops together give the de-duplicated cleared set and the line count. |
| LineScan.ClearCells | java/uk/ac/soton/comp1206/game/Game.java:316-318 | Exactly the listed cells become 0 and every other cell keeps its value. |
| BoardMessages.RowTokens | java/uk/ac/soton/comp1206/game/MultiplayerGame.java:59-61 | One row of the message holds the decimal values of that row's cells, `x` ascending. |
| BoardMessages.TokensAreWords | java/uk/ac/soton/comp1206/game/MultiplayerGame.java:57-62 | Every token is non-empty and has no space, so a split on spaces recovers the tokens. |
| BoardMessages.SplitBoardMessage | java/uk/ac/soton/comp1206/game/MultiplayerGame.java:57-64 | Splitting the message on spaces gives `BOARD` followed by the `cols x rows` cell tokens, `y` outer and `x` inner. |
| BoardMessages.ParseBoardOfMessage | java/uk/ac/soton/comp1206/game/MultiplayerGame.java:56-65 | Parsing the `BOARD` message of any board of `int` values gives back that board. |
| BoardMessages.DecodeBoardTokens | java/uk/ac/soton/comp1206/game/MultiplayerGame.java:58-62 | The tokens decode to the board's rows in row-major order. |
| BoardMessages.TransposedRowMajor | java/uk/ac/soton/comp1206/game/MultiplayerGame.java:58-59 | The row-major reading of a board, transposed back, is the board. |
| BoardMessages.ParseBoardMessage | java/uk/ac/soton/comp1206/game/MultiplayerGame.java:56-65 | A successful parse has the board's size. |
| BoardMessages.AppendRow | java/uk/ac/soton/comp1206/game/MultiplayerGame.java:59-61 | The inner loop appends `" " + value` for each cell of the row. |
| BoardMessages.BuildBoardMessage | java/uk/ac/soton/comp1206/game/MultiplayerGame.java:56-64 | The `StringBuilder` loops produce exactly the `BOARD` message of the grid. |
| GameRules.LevelFor | java/uk/ac/soton/comp1206/game/Game.java:356-362 | For a non-negative score, the level is the number of whole thousands in it. |
| GameRules.LevelIsThousands | java/uk/ac/soton/comp1206/game/Game.java:356-362 | The truncating `/1000 * 1000 / 1000` is `score / 1000` for non-negative scores. |
| GameRules.NextMultiplier | java/uk/ac/soton/comp1206/game/Game.java:345-351 | After a clear the multiplier rises by one, otherwise it is 1. It stays at least 1. |
| GameRules.AfterClear | java/uk/ac/soton/comp1206/game/Game.java:316-328 | The clear step keeps lives and sets the multiplier by the clear rule. |
| GameRules.AfterClearKeepsConsistent | java/uk/ac/soton/comp1206/game/Game.java:321-362 | The clear step keeps score >= 0, level = score / 1000 and multiplier >= 1. The score rises by `lines x blocks x 10 x` the old multiplier on a clear, and never decreases. |
| GameRules.LevelRisesOnlyWithPoints | java/uk/ac/soton/comp1206/game/Game.java:321-362 | The level never drops. It rises only when lines were cleared and the new score reached the next thousand. |
| GameRules.TimerDelay | java/uk/ac/soton/comp1206/game/Game.java:481-484 | The delay is `max(2500, 12000 - 500 x level)`: at least both, and equal to one of them. |
| GameRules.TimerDelayMilestones | java/uk/ac/soton/comp1206/game/Game.java:481-484 | 12000 at level 0 and 7000 at level 10. The 2500 floor holds exactly from level 19 on. |
| GameRules.TimerDelayMonotonic | java/uk/ac/soton/comp1206/game/Game.java:481-484 | A higher level never has a longer delay. |
| GameRules.ReadPieceMessage | java/uk/ac/soton/comp1206/game/MultiplayerGame.java:35-41 | Messages not starting `PIECE` are ignored. A bare `PIECE` throws StringIndexOutOfBounds. Otherwise the text after `PIECE ` is parsed, or NumberFormat is thrown. |
| GameRules.ReadPieceAnnouncement | java/uk/ac/soton/comp1206/game/MultiplayerGame.java:35-41 | `PIECE n` for any `int` `n` reads as piece number `n`. |
| GameRules.LivesMessage | java/uk/ac/soton/comp1206/game/MultiplayerGame.java:82 | The lives report starts `LIVES `. |
| GameRules.OnlyRequestsArePieces | java/uk/ac/soton/comp1206/game/MultiplayerGame.java:44-82 | No `LIVES`, `DIE` or `BOARD` message is a `PIECE` request, so counting requests in the outbox is sound. |
| Games.Requests | java/uk/ac/soton/comp1206/game/MultiplayerGame.java:43-51 | `n` requests are `n` messages, each `PIECE`. |
| Games.RequestCount | java/uk/ac/soton/comp1206/game/MultiplayerGame.java:43-51 | Sending `n` requests adds exactly `n` to the log's count of `PIECE` messages. |
| Games.ClearEvents | java/uk/ac/soton/comp1206/game/Game.java:321-361 | Listeners hear nothing without a clear. The level-up sound plays iff a clear raised the level. |
| Games.PieceSource.Next | java/uk/ac/soton/comp1206/game/Game.java:369-370 | Each draw gives the injected choice for the draw's index and counts the draw. |
| Games.Game.constructor | java/uk/ac/soton/comp1206/game/Game.java:120-131 | A new game has score 0, level 0, 3 lives, multiplier 1, an empty board and no pieces. The multiplayer game has sent exactly five `PIECE` requests (MultiplayerGame.java:26-33). |
| Games.Game.RequestPieces | java/uk/ac/soton/comp1206/game/MultiplayerGame.java:47-51 | `requestNextGamePiece(n)` appends `n` requests, or none for `n <= 0`. |
| Games.Game.GridSentinel | java/uk/ac/soton/comp1206/game/Grid.java:85-93 | On a game's grid, whose cells the engine invariant keeps in 0..15, `getGridValue` gives -1 exactly off the grid. |
| Games.Game.SpawnPiece | java/uk/ac/soton/comp1206/game/Game.java:368-371 | A fresh piece whose value is the drawn number plus one. |
| Games.Game.BuildPiece | java/uk/ac/soton/comp1206/game/Game.java:370 | The catalogue piece of the drawn number: a fresh 3x3 piece of value `n + 1`, on an array that is not the grid's. |
| Games.Game.StartGameLoop | java/uk/ac/soton/comp1206/game/Game.java:163-180 | The timer runs with the current level's delay and the loop listener is told. A shut-down scheduler throws RejectedExecution and nothing changes. |
| Games.Game.Start | java/uk/ac/soton/comp1206/game/Game.java:136-158 | The starting figures, an empty board, two fresh drawn pieces shown to the listener, and the timer at the level-0 delay. A shut-down scheduler is reset all the same and then refuses. |
| Games.Game.ResetBoard | java/uk/ac/soton/comp1206/game/Game.java:147-151 | The figures become 0, 0, 3, 1 and every cell 0. |
| Games.Game.DealPieces | java/uk/ac/soton/comp1206/game/Game.java:153-155 | Two draws in order fill the current and then the following slot, and the listener sees both. |
| Games.Game.ResetAndDeal | java/uk/ac/soton/comp1206/game/Game.java:147-155 | The starting figures and an empty board, then two fresh drawn pieces in the two slots, shown to the listener. |
| Games.Game.LoseLife | java/uk/ac/soton/comp1206/game/Game.java:418-421 | One life fewer and the life-lost sound. The multiplayer game then sends `LIVES` with the decremented count (MultiplayerGame.java:80-83). |
| Games.Game.SpawnNextPiece | java/uk/ac/soton/comp1206/game/Game.java:376-381 | The following piece becomes current, and a fresh drawn piece follows. |
| Games.Game.TakeQueuedPiece | java/uk/ac/soton/comp1206/game/MultiplayerGame.java:100-106 | The following piece becomes current. The queue's head is removed into the following slot, the rest of the queue is kept in order, and two requests are sent. An empty queue throws NoSuchElement after the first move and sends nothing. |
| Games.Game.TakeHead | java/uk/ac/soton/comp1206/game/MultiplayerGame.java:102-105 | The queue's head moves into the following slot, the rest of the queue stays in order, and two requests are sent. |
| Games.Game.NextPiece | java/uk/ac/soton/comp1206/game/Game.java:376-381 | `nextPiece` of either game: current becomes the old following piece. It throws exactly when a multiplayer queue is empty. Otherwise the follower is a fresh draw or the queue head; the multiplayer game draws nothing from the random source. |
| Games.Game.CalculateNewScore | java/uk/ac/soton/comp1206/game/Game.java:336-339 | The score grows by the clear formula at the current multiplier. |
| Games.Game.CalculateNewLevel | java/uk/ac/soton/comp1206/game/Game.java:356-362 | The level follows the score, with the level-up sound only on a strict rise. |
| Games.Game.CalculateNewMultiplier | java/uk/ac/soton/comp1206/game/Game.java:345-351 | The multiplier follows the clear rule. |
| Games.Game.AfterPiecePlayed | java/uk/ac/soton/comp1206/game/Game.java:276-329 | Exactly the cells of full rows and columns are emptied. Score, level and multiplier follow the clear rule from the figures before the clear. Consistent figures stay consistent, and every cell stays in 0..15. |
| Games.ClearKeepsInvariant | java/uk/ac/soton/comp1206/game/Game.java:316-328 | The clear rule keeps the figures consistent and every cell in 0..15. |
| Games.Game.ClearLines | java/uk/ac/soton/comp1206/game/Game.java:281-318 | The scans return the cleared set and line count of the board, and exactly those cells are emptied. |
| Games.Game.Rescore | java/uk/ac/soton/comp1206/game/Game.java:320-328 | The figures become the clear rule's result, and the listeners hear the clear events. |
| Games.Game.SendUpdatedBoard | java/uk/ac/soton/comp1206/game/MultiplayerGame.java:56-65 | Exactly one message is sent: the `BOARD` message of the current board. |
| Games.Game.HandlePlayPiece | java/uk/ac/soton/comp1206/game/Game.java:265-271 | After a placement the following piece comes up (a fresh draw, or the queue head) and the timer restarts at the pre-clear level. The board and figures then follow the clear rule. The listeners hear the place sound, the pieces, the loop twice and the clear events. The multiplayer game sends two requests and then the post-clear board (MultiplayerGame.java:90-93). It throws NoSuchElement exactly on an empty multiplayer queue and RejectedExecution exactly on a shut-down scheduler; the events and messages stop where it throws, and board and figures are unchanged. |
| Games.Game.Advance | java/uk/ac/soton/comp1206/game/Game.java:266-269 | The place sound, the next piece, the timer reset, and the loop listener told twice in all. An empty multiplayer queue throws before the pieces are shown; a shut-down scheduler throws before the loop listener. |
| Games.Game.ResetTimer | java/uk/ac/soton/comp1206/game/Game.java:207-213 | After a `nextPiece` that did not throw, the timer restarts at the current level's delay and the loop listener is told twice, or a shut-down scheduler refuses and nothing changes. |
| Games.Game.Settle | java/uk/ac/soton/comp1206/game/Game.java:270 | After a first half that did not throw: the clear rule with its events, then in multiplayer the `BOARD` message of the cleared board. Otherwise nothing changes. |
| Games.Game.BlockClicked | java/uk/ac/soton/comp1206/game/Game.java:247-259 | An illegal click plays the fail sound and changes nothing else: board, figures, both slots, queue, timer, draws and messages are kept. A legal one places the piece centred on the click and then handles the placement: the follower, timer, board, figures, events and messages of `handlePlayPiece` on the placed board, with its two exceptions. |
| Games.Game.Place | java/uk/ac/soton/comp1206/game/Game.java:253 | The click places the current piece with the origin one cell up and left, iff legal. |
| Games.Game.EndGame | java/uk/ac/soton/comp1206/game/Game.java:237-241 | The loop is shut down. With a listener it is told, board, figures and pieces are kept, and the multiplayer game sends `DIE` (MultiplayerGame.java:71-74). Without one the game is re-initialised, and the restart is refused with RejectedExecution before `DIE`. |
| Games.Game.AnnounceEnd | java/uk/ac/soton/comp1206/game/Game.java:239 | The end listener is told, then `DIE` is sent in multiplayer. |
| Games.Game.ShutdownGameLoop | java/uk/ac/soton/comp1206/game/Game.java:218-231 | The scheduler is shut down for good. |
| Games.Game.SendDie | java/uk/ac/soton/comp1206/game/MultiplayerGame.java:73 | Exactly one `DIE` message is appended. |
| Games.Game.RemoteEndGame | java/uk/ac/soton/comp1206/game/Game.java:522-525 | The loop is shut down and the listener, if any, told. There is no restart. The multiplayer game sends `DIE` once (MultiplayerGame.java:113-116). |
| Games.Game.Resume | java/uk/ac/soton/comp1206/game/Game.java:196-200 | With lives left the next piece comes up, the multiplier drops to 1 and the timer restarts. An empty multiplayer queue throws before the multiplier reset, leaving follower, queue and events as they were. The multiplayer game draws nothing from the random source. |
| Games.Game.AfterLifeLost | java/uk/ac/soton/comp1206/game/Game.java:192-200 | Below zero lives the game ends as `endGame` does; otherwise it resumes as the rest of `gameLoop` does, with the board unchanged, no random draw in the multiplayer game, and the queue kept when it throws. |
| Games.Game.Restart | java/uk/ac/soton/comp1206/game/Game.java:198-199 | The multiplier becomes 1 and the timer restarts at the current delay. |
| Games.Game.Tick | java/uk/ac/soton/comp1206/game/Game.java:185-202 | One timeout takes a life with the life-lost sound, and the multiplayer game reports it. With lives left the game goes on with the next piece (a fresh draw or the queue head), multiplier 1, the same score, the pieces shown and the loop restarted, and the multiplayer game requests two pieces; the board is unchanged and the multiplayer game draws nothing from the random source; an empty queue throws after the report, keeping follower and queue. At 0 lives it ends: the loop shuts down; a listener is told, and the multiplayer game sends `DIE`; with no listener the game restarts from the starting figures and the refusal escapes. |
| Games.Game.FourTimeouts | java/uk/ac/soton/comp1206/game/Game.java:185-202 | From 3 lives the first three timeouts go on and the fourth ends the game. |
| Games.Game.RotateCurrentPiece | java/uk/ac/soton/comp1206/game/Game.java:386-391 | The current piece turns a quarter and the rotation listener sees it. |
| Games.Game.RotateCurrentPieceTimes | java/uk/ac/soton/comp1206/game/Game.java:397-401 | The current piece turns `n` times, none for `n <= 0`, with one listener call per turn. |
| Games.Game.SwapCurrentPiece | java/uk/ac/soton/comp1206/game/Game.java:406-412 | The two slots exchange their pieces. |
| Games.Game.SwapTwice | java/uk/ac/soton/comp1206/game/Game.java:406-412 | Swapping twice restores both slots. |
| Games.Game.DropCurrentPiece | java/uk/ac/soton/comp1206/game/Game.java:426-428 | The following piece becomes current, and a fresh draw or the queue head follows; the pieces are shown and two pieces requested in multiplayer. It fails exactly when a multiplayer queue is empty, and then nothing else changes. |
| Games.Game.HandleServerMessage | java/uk/ac/soton/comp1206/game/MultiplayerGame.java:35-41 | `PIECE n` with `0 <= n < 15` appends a fresh piece of value `n + 1` at the back of the queue, keeping the rest. Other messages are ignored. A bad message or number throws and the queue is kept. |
| Games.Game.Enqueue | java/uk/ac/soton/comp1206/game/MultiplayerGame.java:39 | The piece is added at the back of the queue. |
| Ranking.SortDescending | java/uk/ac/soton/comp1206/scene/ScoresScene.java:245 | `sort` by descending score, used here and for the leaderboard at MultiplayerScene.java:187, keeps the length; `SortPermutes`, `SortIsDescending` and `SortIsStable` state the rest. |
| Ranking.Insert | java/uk/ac/soton/comp1206/scene/ScoresScene.java:245 | Insertion adds one entry. |
| Ranking.InsertPermutes | java/uk/ac/soton/comp1206/scene/ScoresScene.java:245 | Insertion adds exactly the entry and loses nothing. |
| Ranking.InsertDescending | java/uk/ac/soton/comp1206/scene/ScoresScene.java:245 | Insertion keeps a list in descending order. |
| Ranking.InsertWithKey | java/uk/ac/soton/comp1206/scene/ScoresScene.java:245 | Entries of equal score keep their order, with the inserted one first among its equals. |
| Ranking.SortPermutes | java/uk/ac/soton/comp1206/scene/ScoresScene.java:245 | The sorted list is a permutation of the input. |
| Ranking.SortIsDescending | java/uk/ac/soton/comp1206/scene/ScoresScene.java:245 | The sorted list is in descending order of score. |
| Ranking.SortIsStable | java/uk/ac/soton/comp1206/scene/ScoresScene.java:245 | For every score, the entries with that score keep their relative order. |
| Ranking.SortOfDescending | java/uk/ac/soton/comp1206/scene/ScoresScene.java:324-348 | Sorting a list already in order changes nothing. |
| Ranking.WithKey | java/uk/ac/soton/comp1206/scene/ScoresScene.java:245 | The entries of one score, each with that score. |
| Ranking.Top | java/uk/ac/soton/comp1206/scene/ScoresScene.java:246 | `subList(0, min(n, size))`: a prefix of length `min(n, size)`. |
| ScoresScreen.FormatScore | java/uk/ac/soton/comp1206/scene/ScoresScene.java:350 | The line starts with the name and then `:`. |
| ScoresScreen.FormattedLines | java/uk/ac/soton/comp1206/scene/ScoresScene.java:349-352 | One formatted line per entry, in order. |
| ScoresScreen.ParseScoreLine | java/uk/ac/soton/comp1206/scene/ScoresScene.java:388-395 | A parsed entry's name is the `:`-free prefix of the line. A line without `:` is skipped. |
| ScoresScreen.ParseFormattedLine | java/uk/ac/soton/comp1206/scene/ScoresScene.java:388-393 | A formatted entry with a `:`- and newline-free name and an `int` score parses back to itself. |
| ScoresScreen.ParsedFormattedLines | java/uk/ac/soton/comp1206/scene/ScoresScene.java:387-397 | The formatted lines of such entries parse back to the same list. |
| ScoresScreen.ParseStringScores | java/uk/ac/soton/comp1206/scene/ScoresScene.java:382-400 | After `HISCORES ` the lines that split into exactly two parts with an `int` score are kept, in order, and the rest skipped. A message shorter than the prefix throws. |
| ScoresScreen.HiscoresRoundTrip | java/uk/ac/soton/comp1206/scene/ScoresScene.java:382-400 | A `HISCORES` message listing well-formed entries parses to exactly those entries. |
| ScoresScreen.LinesHaveNoBreak | java/uk/ac/soton/comp1206/scene/ScoresScene.java:349-352 | Formatted lines of well-formed entries are non-empty and have no newline. |
| ScoresScreen.MinScore | java/uk/ac/soton/comp1206/scene/ScoresScene.java:373 | `Collections.min` by score: no entry scores less, and some entry attains it. |
| ScoresScreen.SeeIfNewHighScore | java/uk/ac/soton/comp1206/scene/ScoresScene.java:372-375 | True iff the finished score beats some listed score. An empty list throws NoSuchElement. |
| ScoresScreen.Claimed | java/uk/ac/soton/comp1206/scene/ScoresScene.java:315-322 | The list is unchanged or gains the player's entry at the back. An empty list throws. |
| ScoresScreen.ClaimedOnlyWhenHigh | java/uk/ac/soton/comp1206/scene/ScoresScene.java:232-243 | The entry is added iff the score is a new high score and a name was given. |
| ScoresScreen.ShowOnlineScores | java/uk/ac/soton/comp1206/scene/ScoresScene.java:224-251 | A message not starting `HISCORES` is ignored and sends nothing. A bare `HISCORES` throws StringIndexOutOfBounds and a list with no parsable entry throws NoSuchElement, sending nothing. Otherwise the shown list is the top 10 of the sorted, possibly extended list, and `HISCORE name:score` is sent iff the player's entry was added. |
| ScoresScreen.OnlineScoresRanked | java/uk/ac/soton/comp1206/scene/ScoresScene.java:245-247 | The shown list has at most 10 entries, is descending and is drawn from the full list. |
| ScoresScreen.WriteLocalScores | java/uk/ac/soton/comp1206/scene/ScoresScene.java:336-357 | The list is sorted in place, then written as one `name:score` line per entry in that order. |
| ScoresScreen.ReadScoreLine | java/uk/ac/soton/comp1206/scene/ScoresScene.java:294-297 | A two-part line with a bad number throws NumberFormat, uncaught. Otherwise it reads as the lenient parser does. |
| ScoresScreen.ReadScores | java/uk/ac/soton/comp1206/scene/ScoresScene.java:290-297 | The file loop collects at most one entry per line, and the only exception it lets out is NumberFormat. |
| ScoresScreen.ReadScoresFails | java/uk/ac/soton/comp1206/scene/ScoresScene.java:293-298 | Reading the file fails iff some line throws. |
| ScoresScreen.ReadScoresAgree | java/uk/ac/soton/comp1206/scene/ScoresScene.java:293-298 | When reading succeeds, it gives the same entries as the lenient online parser. |
| ScoresScreen.FailingLine | java/uk/ac/soton/comp1206/scene/ScoresScene.java:293-298 | A failed read names a line that throws. |
| ScoresScreen.ReadErrorPersists | java/uk/ac/soton/comp1206/scene/ScoresScene.java:293-298 | Once a line throws, later lines change nothing. |
| ScoresScreen.ReadScoreFile | java/uk/ac/soton/comp1206/scene/ScoresScene.java:288-298 | The read loop appends the entries of the file to the list, or ends with the first exception. |
| ScoresScreen.LocalFileRoundTrip | java/uk/ac/soton/comp1206/scene/ScoresScene.java:293-351 | Reading back a written file of well-formed entries gives the same entries. |
| ScoresScreen.Finish | java/uk/ac/soton/comp1206/scene/ScoresScene.java:315-327 | A read error escapes. An empty list throws NoSuchElement in the high-score test. Any other list gives a screen. |
| ScoresScreen.FinishRanked | java/uk/ac/soton/comp1206/scene/ScoresScene.java:315-327 | The shown list is at most 10 entries, descending, and each outscores every entry left off. The rewritten file reads back as the whole sorted list. |
| ScoresScreen.WriteSortedAgain | java/uk/ac/soton/comp1206/scene/ScoresScene.java:324-348 | Sorting again before the write does not change the order. |
| ScoresScreen.DummyFileReadBack | java/uk/ac/soton/comp1206/scene/ScoresScene.java:283-297 | The file written for the two placeholder scores reads back as them, best first. |
| ScoresScreen.Conclude | java/uk/ac/soton/comp1206/scene/ScoresScene.java:315-327 | The high-score prompt, sort, truncation and rewrite of a read list. |
| ScoresScreen.LoadFrom | java/uk/ac/soton/comp1206/scene/ScoresScene.java:288-327 | Reading a file onto a list and then concluding. |
| ScoresScreen.LoadLocalScoresAsWritten | java/uk/ac/soton/comp1206/scene/ScoresScene.java:267-329 | As written: with no file the placeholders are put in the list and in the new file, and the file is then read onto the same list. |
| ScoresScreen.LoadLocalScores | java/uk/ac/soton/comp1206/scene/ScoresScene.java:267-329 | Corrected: with no file the placeholders are shown once. With a file its entries are read, ranked and written back. |
| ScoresScreen.DummiesShownTwice | java/uk/ac/soton/comp1206/scene/ScoresScene.java:279-298 | As written, a first run with a score of at most 1 shows `Bob 2, Bob 2, Jeff 1, Jeff 1`. |
| ScoresScreen.DummiesShownOnce | java/uk/ac/soton/comp1206/scene/ScoresScene.java:279-298 | Corrected, the same run shows `Bob 2, Jeff 1`. |
| ScoresScreen.LoadMultiplayerGameScoresAsWritten | java/uk/ac/soton/comp1206/scene/ScoresScene.java:256-261 | As written, every entry is shown, so more than 10 entries show more than 10. |
| ScoresScreen.LoadMultiplayerGameScores | java/uk/ac/soton/comp1206/scene/ScoresScene.java:256-261 | Corrected: at most 10 entries, a prefix of the list, and the whole list when it is short. |
| MultiplayerLeaderboard.ParseEntryLine | java/uk/ac/soton/comp1206/scene/MultiplayerScene.java:206-223 | An entry's name is the `:`-free prefix of its line. A player out of the game has lives -1. A line without `:` is skipped. |
| MultiplayerLeaderboard.MinusOneText | java/uk/ac/soton/comp1206/scene/MultiplayerScene.java:215 | The decimal text of an `int` is `-1` only for -1. |
| MultiplayerLeaderboard.EntryLineRoundTrip | java/uk/ac/soton/comp1206/scene/MultiplayerScene.java:206-223 | `name:score:lives` reads back as that player, alive exactly when lives is not -1. |
| MultiplayerLeaderboard.BadScoreSkipped | java/uk/ac/soton/comp1206/scene/MultiplayerScene.java:211-225 | A line whose score is not a number is skipped. |
| MultiplayerLeaderboard.SkippedLineIsHarmless | java/uk/ac/soton/comp1206/scene/MultiplayerScene.java:205-226 | A skipped line does not affect the entries of the other lines. |
| MultiplayerLeaderboard.ParseStringScores | java/uk/ac/soton/comp1206/scene/MultiplayerScene.java:201-230 | After `SCORES ` each line that parses becomes an entry, in order. A message shorter than the prefix throws. |
| MultiplayerLeaderboard.AsScores | java/uk/ac/soton/comp1206/scene/MultiplayerScene.java:188-189 | Each entry becomes its `(name, score)`, in order. |
| MultiplayerLeaderboard.Scene.HandleServerMessage | java/uk/ac/soton/comp1206/scene/MultiplayerScene.java:181-194 | A `SCORES` message replaces `allScores` with every entry, sorted, and the leaderboard with the first five. Other messages change nothing. A bare `SCORES` throws before any change. |
| MultiplayerLeaderboard.StandingsRanked | java/uk/ac/soton/comp1206/scene/MultiplayerScene.java:186-191 | `allScores` is a stable descending permutation of the entries. The leaderboard is its first `min(5, n)` entries, each outscoring every player left off. |
| ChatCommands.SendMessage | java/uk/ac/soton/comp1206/component/ChatWindow.java:165-180 | A `NICK` message is sent iff the input is a nickname command. Any other input sends `MSG` and the stripped text. A bare `/nick` throws StringIndexOutOfBounds and sends nothing. |
| ChatCommands.LongNickSendsName | java/uk/ac/soton/comp1206/component/ChatWindow.java:168-169 | Each spelling of `/nickname ` followed by a name sends `NICK` and the name. |
| ChatCommands.ShortNickSendsName | java/uk/ac/soton/comp1206/component/ChatWindow.java:172-173 | `/nick name` sends `NICK name`. |
| ChatCommands.ShortNickDropsSixth | java/uk/ac/soton/comp1206/component/ChatWindow.java:172-173 | Any other input starting `/nick` sends `NICK` and the text after its sixth character, whatever that character is. |
| ChatCommands.ShortNickWithoutSpace | java/uk/ac/soton/comp1206/component/ChatWindow.java:172-173 | `/nickxbob` sends `NICK bob`. |
| ChatCommands.LongNickWithoutSpace | java/uk/ac/soton/comp1206/component/ChatWindow.java:168-173 | `/nicknamebob` sends `NICK amebob`. |
| ChatCommands.ChatLineStable | java/uk/ac/soton/comp1206/component/ChatWindow.java:176-177 | Sending an already stripped chat line sends the same message. |
| ChatCommands.ReceiveMessage | java/uk/ac/soton/comp1206/component/ChatWindow.java:129-158 | Only a `MSG` message of at least two `:`-parts shows a line. A bare `MSG` throws, and a `HOST` message shows nothing. |
| ChatCommands.ReceiveShowsFirstTwoParts | java/uk/ac/soton/comp1206/component/ChatWindow.java:142-151 | `MSG a:b:...` shows `a: b` on its own line. Parts after the second are dropped. |
| ChatCommands.ReceiveWithoutSeparator | java/uk/ac/soton/comp1206/component/ChatWindow.java:143-148 | A message without `:` shows nothing. |

## Left out

- Rendering, audio playback, dialogs and scene wiring (the JavaFX user interface) are not modelled; audio requests appear only as `Audio` events in the log.
- The `SCORES` and `HISCORES UNIQUE` requests the scenes send when they open are not modelled: they ask the server for data and hold no score logic.
- `toString` and the grid's debug string are not modelled: they serve logging only.
- Threads, `Platform.runLater` and the `ScheduledExecutorService` are replaced by the `Timer` state and the `Tick` method (one expiry of the timer); cancelling a running task is not modelled.
- `java.util.Random` is replaced by the injected `spawn` function of the number of pieces drawn so far.
- File existence, file creation and `IOException` paths are not modelled: a missing score file is `None` and a present one is its text.
- `readLine` is modelled as splitting on `'\n'` only; a `'\r'` in the score file stays in its line.
- JavaText.WriteLines: `newLine` writes the platform's line separator; the model always writes `'\n'`, so on Windows (`"\r\n"`) the written text differs.
- JavaText.ParseInt: only the ASCII digits `'0'..'9'` are modelled; `Integer.parseInt` also accepts any other Unicode decimal digit (for example full-width digits), which the model rejects as a NumberFormat error.
- Every listener except the end-game listener is taken to be registered, its calls appended to `events`; the end-game listener may be absent (`hasEndGameListener`) because `endGame` then restarts the game.
- Java `int` overflow of score and level is not modelled: the figures are unbounded integers, so the score formula of `AfterClear` never wraps at 2^31.
- Games.Game.BlockClicked: requires a current piece, as do `RotateCurrentPiece`, `RotateCurrentPieceTimes`, `NextPiece` and `DropCurrentPiece`; before the pieces are dealt Java fails on a null dereference, which is not modelled.
- Pieces.GamePiece.GetValueAtCoordinate: requires an in-bounds index; Java throws ArrayIndexOutOfBounds otherwise, which is not modelled.
- Grids.Grid.UpdateGridValue: requires an in-bounds index; Java throws ArrayIndexOutOfBounds otherwise, which is not modelled.
- The engine invariant `Core` keeps the catalogue's arrays distinct and apart from the grid but does not carry the catalogue's intactness through the game, so the pieces a game draws are described by their value; `CreatePiece` and `CreateTwice` state their makeup.
- MultiplayerGame.java:39 calls `GamePiece.GamePieceType.createGamePiece(n + 1)`, which the private enum does not have; `HandleServerMessage` models it as `createPiece(n)`, the piece of value `n + 1`, with its IndexOutOfBounds error for numbers outside the catalogue.
- The multiplayer `allScores` list belongs to the finished game object in the source; here it is a field of `MultiplayerLeaderboard.Scene`, the object that writes it.
- A `HOST` message to the chat window only enables a button; `ReceiveMessage` models it as showing nothing.
- MultiplayerLeaderboard.ParseEntryLine: a lives text such as `-01` goes through `parseInt` and gives lives -1 with the player still alive; only the exact text `-1` marks a player out, as in the source.

## Findings

| source | as written | input that shows it | evidently intended | confidence | as-written member | corrected member |
|---|---|---|---|---|---|---|
| java/uk/ac/soton/comp1206/scene/ScoresScene.java:279-298 | When the score file is missing, the two placeholder scores are added to `scores` and written to a new file. The file is then read and its lines are appended to the same list, so each placeholder is listed twice. | First run with no score file, a finished score of at most 1, no name given: shown `Bob 2, Bob 2, Jeff 1, Jeff 1`. | Each placeholder appears once: `Bob 2, Jeff 1`. | not executed | ScoresScreen.LoadLocalScoresAsWritten, ScoresScreen.DummiesShownTwice | ScoresScreen.LoadLocalScores, ScoresScreen.DummiesShownOnce |
| java/uk/ac/soton/comp1206/scene/ScoresScene.java:258-259 | `subList(0, min(10, size))` is computed and discarded, and the whole `allScores` list is shown. | A multiplayer game with 11 players: 11 entries are shown. | At most 10 entries are shown, the first of the list. | not executed | ScoresScreen.LoadMultiplayerGameScoresAsWritten | ScoresScreen.LoadMultiplayerGameScores |
