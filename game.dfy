/** The game engine (java/uk/ac/soton/comp1206/game/Game.java) together with
    its multiplayer variant (java/uk/ac/soton/comp1206/game/MultiplayerGame.java),
    which overrides `nextPiece`, `loseLife`, `endGame`, `remoteEndGame` and
    `handlePlayPiece`; here one class whose `multiplayer` flag selects the
    overriding behaviour.

    The game loop timer becomes the `timer` field and the `Tick` method (one
    expiry of the timer); the random piece choice becomes the function
    `spawn` applied to the number of pieces drawn so far; the listeners
    become an `events` log and the server connection an `outbox` of sent
    messages, inbound messages being calls of `HandleServerMessage`. */
module Games {
  import opened Outcomes
  import opened JavaText
  import opened Pieces
  import opened Grids
  import opened Lines
  import opened LineScan
  import opened BoardMessages
  import opened GameRules

  /** The game loop scheduler: never started, repeating with a delay, or
      shut down for good. */
  datatype Timer = Idle | Running(delay: int) | ShutDown

  /** A call of one of the game's listeners. */
  datatype Event =
    | Audio(file: string)                                  // playAudioListener
    | PiecesShown(current: GamePiece?, following: GamePiece?) // nextPieceListener
    | GameLoopStarted                                      // gameLoopListener
    | LinesCleared(cells: set<Coordinate>)                 // lineClearedListener
    | PieceRotated(piece: GamePiece)                       // rotatePieceListener
    | GameEnded                                            // endGameListener

  /** `n` piece requests. */
  function Requests(n: nat): (r: seq<string>)
    ensures |r| == n && forall i :: 0 <= i < n ==> r[i] == "PIECE"
  {
    seq(n, _ => "PIECE")
  }

  /** `n` requests are `n` messages reading `PIECE`, and adding them to a
      log adds `n` to its count of such messages. */
  lemma {:induction false} RequestCount(log: seq<string>, n: nat)
    ensures multiset(log + Requests(n))["PIECE"] == multiset(log)["PIECE"] + n
  {
    if n > 0 {
      RequestCount(log, n - 1);
      assert log + Requests(n) == (log + Requests(n - 1)) + ["PIECE"];
    }
  }

  /** What the listeners hear at the end of a placement: the level-up sound
      if the level rose, then the cleared cells, both only when a line was
      cleared. */
  function ClearEvents(oldLevel: int, newLevel: int, cells: set<Coordinate>, lines: nat): (e: seq<Event>)
    ensures e == [] <==> lines == 0 || cells == {}
    ensures Audio("level.wav") in e <==> lines >= 1 && cells != {} && oldLevel < newLevel
  {
    if lines >= 1 && cells != {} then
      (if oldLevel < newLevel then [Audio("level.wav")] else []) + [LinesCleared(cells)]
    else []
  }

  /** How `handlePlayPiece` ends: `nextPiece` throws when the multiplayer
      queue is empty, and otherwise a shut down scheduler refuses the new
      loop. */
  function PlayOutcome(queueEmpty: bool, shutDown: bool): (s: Status)
    ensures s.Completed? <==> !queueEmpty && !shutDown
  {
    if queueEmpty then Threw(NoSuchElement)
    else if shutDown then Threw(RejectedExecution)
    else Completed
  }

  /** The clear rule keeps the figures consistent and every cell in range. */
  lemma ClearKeepsInvariant(f: Figures, b: Matrix, cols: nat, rows: nat)
    requires IsBoard(b, cols, rows) && Consistent(f) && ValuesInRange(b)
    ensures Consistent(AfterClear(f, LineCount(b, cols, rows), |ClearedCells(b, cols, rows)|))
    ensures ValuesInRange(Cleared(b, ClearedCells(b, cols, rows)))
  {
    AfterClearKeepsConsistent(f, LineCount(b, cols, rows), |ClearedCells(b, cols, rows)|);
    ClearedInRange(b, ClearedCells(b, cols, rows));
  }

  /** The same event `n` times. */
  function Repeated(e: Event, n: int): (r: seq<Event>)
    ensures |r| == if n < 0 then 0 else n
    ensures forall i :: 0 <= i < |r| ==> r[i] == e
  {
    seq(if n < 0 then 0 else n, _ => e)
  }

  /** A piece a game can hold: a catalogue value and a 3x3 block makeup
      that is not the grid's array. */
  ghost predicate PieceFits(p: GamePiece, cells: array2<int>)
    reads p
  {
    1 <= p.value <= PieceCount && p.blocks.Length0 == 3 && p.blocks.Length1 == 3 && p.blocks != cells
  }

  /** The random generator of `spawnPiece`: draw number `i` gives piece
      number `spawn(i)`. */
  class PieceSource {
    const spawn: nat -> PieceNumber
    var draws: nat

    constructor (spawn: nat -> PieceNumber)
      ensures this.spawn == spawn && draws == 0
    {
      this.spawn := spawn;
      draws := 0;
    }

    /** `random.nextInt(0, GamePiece.PIECES)`. */
    method Next() returns (n: PieceNumber)
      modifies this
      ensures n == spawn(old(draws)) && draws == old(draws) + 1
    {
      n := spawn(draws);
      draws := draws + 1;
    }
  }

  class Game {
    const cols: nat
    const rows: nat
    const grid: Grid
    /** The shared arrays of the piece catalogue. */
    const table: PieceTable
    const multiplayer: bool
    /** Whether a scene registered an end-game listener. */
    const hasEndGameListener: bool
    const source: PieceSource

    var score: int
    var level: int
    var lives: int
    var multiplier: int
    var currentPiece: GamePiece?
    var followingPiece: GamePiece?
    var timer: Timer
    var events: seq<Event>
    /** `receivedGamePieces`: pieces sent by the server, oldest first. */
    var queue: seq<GamePiece>
    /** The messages sent to the server, oldest first. */
    var outbox: seq<string>
    /** Every piece the server ever sent, and how many of them were taken. */
    ghost var received: seq<GamePiece>
    ghost var advances: nat

    function Stats(): Figures
      reads this`score, this`level, this`lives, this`multiplier
    {
      Figures(score, level, lives, multiplier)
    }

    /** The catalogue is intact and its arrays are not the grid's. */
    ghost predicate TableOk() {
      table.Valid() && grid.cells !in table.shapes
    }

    /** The grid has the game's size. */
    ghost predicate GridOk() {
      grid.Valid() && grid.cols == cols && grid.rows == rows
    }

    /** Every piece held is one the game can use; both slots are filled,
        or neither is. */
    ghost predicate PiecesOk()
      reads this`currentPiece, this`followingPiece, this`queue
      reads currentPiece, followingPiece, queue
    {
      && (currentPiece == null <==> followingPiece == null)
      && (currentPiece != null ==> PieceFits(currentPiece, grid.cells))
      && (followingPiece != null ==> PieceFits(followingPiece, grid.cells))
      && (forall p :: p in queue ==> PieceFits(p, grid.cells))
    }

    /** A running timer has pieces to play; in a multiplayer game the queue
        is the unused tail of what the server sent, with five requests at
        the start and two more for every piece taken; a single-player game
        has neither queue nor messages. */
    ghost predicate Bookkeeping()
      reads this`timer, this`currentPiece, this`queue, this`received, this`advances, this`outbox
    {
      && (timer.Running? ==> currentPiece != null)
      && (multiplayer ==> && advances <= |received| && queue == received[advances..]
                          && multiset(outbox)["PIECE"] == 5 + 2 * advances)
      && (!multiplayer ==> queue == [] && outbox == [])
    }

    /** Everything but the figures. */
    ghost predicate Core()
      reads this`currentPiece, this`followingPiece, this`queue, this`timer, this`received,
        this`advances, this`outbox
      reads currentPiece, followingPiece, queue
    {
      TableOk() && GridOk() && PiecesOk() && Bookkeeping()
    }

    /** The engine's invariant: the figures are consistent, a game whose
        timer is not shut down has lives left, and every cell of the grid is
        empty or holds a piece value. */
    ghost predicate Valid()
      reads this, currentPiece, followingPiece, grid, grid.cells, set p | p in queue
    {
      Core() && Consistent(Stats()) && (!timer.ShutDown? ==> lives >= 0) && ValuesInRange(grid.Board())
    }

    /** `getGridValue` on the game's grid gives -1 exactly off the grid. */
    lemma GridSentinel(x: int, y: int)
      requires Valid()
      ensures grid.GetGridValue(x, y) == -1 <==> !(0 <= x < cols && 0 <= y < rows)
    {
      grid.OffGridSentinel(x, y);
    }

    /** `new Game(cols, rows)`, or `new MultiplayerGame(cols, rows, ...)`,
        which asks the server for five pieces at once. */
    constructor (cols: nat, rows: nat, table: PieceTable, multiplayer: bool,
                 hasEndGameListener: bool, source: PieceSource)
      requires table.Valid()
      ensures Valid()
      ensures this.cols == cols && this.rows == rows && this.table == table
      ensures this.multiplayer == multiplayer && this.hasEndGameListener == hasEndGameListener
      ensures this.source == source
      ensures fresh(grid) && fresh(grid.cells) && grid.Board() == Filled(cols, rows, 0)
      ensures Stats() == StartFigures
      ensures currentPiece == null && followingPiece == null && timer == Idle
      ensures events == [] && queue == []
      ensures outbox == if multiplayer then Requests(5) else []
    {
      this.cols := cols;
      this.rows := rows;
      this.table := table;
      this.multiplayer := multiplayer;
      this.hasEndGameListener := hasEndGameListener;
      this.source := source;
      score := 0;
      level := 0;
      lives := 3;
      multiplier := 1;
      grid := new Grid(cols, rows);
      currentPiece := null;
      followingPiece := null;
      timer := Idle;
      events := [];
      queue := [];
      outbox := [];
      received := [];
      advances := 0;
      new;
      if multiplayer {
        RequestPieces(5);
      }
    }

    /** `requestNextGamePiece(pieces)`: one `PIECE` message per piece. */
    method RequestPieces(pieces: int)
      modifies this`outbox
      ensures outbox == old(outbox) + Requests(if pieces < 0 then 0 else pieces)
      ensures multiset(outbox)["PIECE"] == multiset(old(outbox))["PIECE"] + if pieces < 0 then 0 else pieces
    {
      var i := 0;
      while i < pieces
        invariant 0 <= i <= if pieces < 0 then 0 else pieces
        invariant outbox == old(outbox) + Requests(i)
      {
        outbox := outbox + ["PIECE"];
        i := i + 1;
        assert Requests(i) == Requests(i - 1) + ["PIECE"];
      }
      RequestCount(old(outbox), i);
    }

    /** `spawnPiece()`: a new piece of the next drawn number, built on the
        catalogue's array for that number (`CreatePiece` states its shape). */
    method SpawnPiece() returns (piece: GamePiece)
      requires Core()
      modifies source, table.shapes
      ensures Core()
      ensures source.draws == old(source.draws) + 1
      ensures fresh(piece) && PieceFits(piece, grid.cells)
      ensures piece.value == source.spawn(old(source.draws)) + 1
    {
      var n := source.Next();
      piece := BuildPiece(n);
    }

    /** `createPiece(n)` for a drawn number: a fresh piece the game can hold. */
    method BuildPiece(n: PieceNumber) returns (piece: GamePiece)
      requires TableOk()
      modifies table.shapes
      ensures fresh(piece) && PieceFits(piece, grid.cells) && piece.value == n + 1
    {
      var r := CreatePiece(table, n);
      piece := r.value;
    }

    /** `startGameLoop()`: the timer restarts with the delay of the current
        level; a scheduler that was shut down refuses the new loop. */
    method StartGameLoop() returns (s: Status)
      requires Core() && currentPiece != null
      modifies this`timer, this`events
      ensures Core()
      ensures old(timer).ShutDown? ==> s == Threw(RejectedExecution) && timer == ShutDown && events == old(events)
      ensures !old(timer).ShutDown? ==>
        s == Completed && timer == Running(TimerDelay(level)) && events == old(events) + [GameLoopStarted]
    {
      if timer.ShutDown? {
        return Threw(RejectedExecution);
      }
      timer := Running(TimerDelay(level));
      events := events + [GameLoopStarted];
      s := Completed;
    }

    /** The two draws of `initialiseGame`: the current piece and then the
        following one, both shown to the player. */
    method DealPieces()
      requires Core()
      modifies this`currentPiece, this`followingPiece, this`events, source, table.shapes
      ensures Core()
      ensures source.draws == old(source.draws) + 2
      ensures fresh(currentPiece) && currentPiece.value == source.spawn(old(source.draws)) + 1
      ensures fresh(followingPiece) && followingPiece.value == source.spawn(old(source.draws) + 1) + 1
      ensures events == old(events) + [PiecesShown(currentPiece, followingPiece)]
    {
      var first := SpawnPiece();
      var second := SpawnPiece();
      ShowPieces(first, second);
    }

    /** Fills both slots and tells the listener. */
    method ShowPieces(current: GamePiece, following: GamePiece)
      requires Core() && PieceFits(current, grid.cells) && PieceFits(following, grid.cells)
      modifies this`currentPiece, this`followingPiece, this`events
      ensures Core()
      ensures currentPiece == current && followingPiece == following
      ensures events == old(events) + [PiecesShown(current, following)]
    {
      currentPiece, followingPiece := current, following;
      events := events + [PiecesShown(current, following)];
    }

    /** The first lines of `initialiseGame`: the figures of a new game and
        an empty grid. */
    method ResetBoard()
      requires Core()
      modifies this`score, this`level, this`lives, this`multiplier, grid.cells
      ensures Core()
      ensures Stats() == StartFigures && grid.Board() == Filled(cols, rows, 0)
    {
      score, level, lives, multiplier := 0, 0, 3, 1;
      grid.ClearGrid();
    }

    /** `start()` and `initialiseGame()`: the figures and the grid are reset,
        two pieces are drawn and shown, and the timer starts; a game whose
        scheduler was shut down is reset all the same and then refused. */
    method Start() returns (s: Status)
      requires Core()
      modifies this`score, this`level, this`lives, this`multiplier, this`currentPiece,
        this`followingPiece, this`timer, this`events, grid.cells, source, table.shapes
      ensures Valid()
      ensures Stats() == StartFigures && grid.Board() == Filled(cols, rows, 0)
      ensures source.draws == old(source.draws) + 2
      ensures fresh(currentPiece) && currentPiece.value == source.spawn(old(source.draws)) + 1
      ensures fresh(followingPiece) && followingPiece.value == source.spawn(old(source.draws) + 1) + 1
      ensures s == if old(timer).ShutDown? then Threw(RejectedExecution) else Completed
      ensures timer == if old(timer).ShutDown? then ShutDown else Running(TimerDelay(0))
      ensures events == old(events) + [PiecesShown(currentPiece, followingPiece)]
                        + (if old(timer).ShutDown? then [] else [GameLoopStarted])
    {
      ResetAndDeal();
      s := StartGameLoop();
    }

    /** `initialiseGame()` up to the timer: the figures and the grid reset,
        then the two pieces drawn and shown. */
    method ResetAndDeal()
      requires Core()
      modifies this`score, this`level, this`lives, this`multiplier, this`currentPiece,
        this`followingPiece, this`events, grid.cells, source, table.shapes
      ensures Core() && currentPiece != null
      ensures Stats() == StartFigures && grid.Board() == Filled(cols, rows, 0)
      ensures source.draws == old(source.draws) + 2
      ensures fresh(currentPiece) && currentPiece.value == source.spawn(old(source.draws)) + 1
      ensures fresh(followingPiece) && followingPiece.value == source.spawn(old(source.draws) + 1) + 1
      ensures events == old(events) + [PiecesShown(currentPiece, followingPiece)]
    {
      ResetBoard();
      ghost var board := grid.Board();
      DealPieces();
      assert Stats() == StartFigures && grid.Board() == board;
    }

    /** `loseLife()`: one life fewer and the life-lost sound; the
        multiplayer game then reports the new count to the server. */
    method LoseLife()
      requires Core()
      modifies this`lives, this`events, this`outbox
      ensures Core()
      ensures lives == old(lives) - 1
      ensures events == old(events) + [Audio("lifelose.wav")]
      ensures outbox == old(outbox) + if multiplayer then [LivesMessage(lives)] else []
    {
      lives := lives - 1;
      events := events + [Audio("lifelose.wav")];
      if multiplayer {
        var msg := LivesMessage(lives);
        assert msg[0] == 'L';
        outbox := outbox + [msg];
      }
    }

    /** `nextPiece()` of the single-player game: the following piece moves
        up and a new one is drawn behind it. */
    method SpawnNextPiece()
      requires Core() && followingPiece != null && !multiplayer
      modifies this`currentPiece, this`followingPiece, this`events, source, table.shapes
      ensures Core()
      ensures currentPiece == old(followingPiece)
      ensures fresh(followingPiece) && followingPiece.value == source.spawn(old(source.draws)) + 1
      ensures source.draws == old(source.draws) + 1
      ensures events == old(events) + [PiecesShown(currentPiece, followingPiece)]
    {
      var piece := SpawnPiece();
      ShowPieces(followingPiece, piece);
    }

    /** `nextPiece()` of the multiplayer game: the following piece moves up
        and the oldest piece from the server takes its place, after which
        two more pieces are requested. With no piece waiting, `remove()`
        throws once the following piece has already moved up. */
    method TakeQueuedPiece() returns (s: Status)
      requires Core() && followingPiece != null && multiplayer
      modifies this`currentPiece, this`followingPiece, this`events, this`queue, this`advances, this`outbox
      ensures Core()
      ensures currentPiece == old(followingPiece)
      ensures old(queue) == [] ==> && s == Threw(NoSuchElement) && followingPiece == old(followingPiece)
                                   && queue == [] && events == old(events) && outbox == old(outbox)
      ensures old(queue) != [] ==> && s == Completed && followingPiece == old(queue)[0]
                                   && queue == old(queue)[1..] && advances == old(advances) + 1
                                   && events == old(events) + [PiecesShown(currentPiece, followingPiece)]
                                   && outbox == old(outbox) + Requests(2)
    {
      currentPiece := followingPiece;
      if queue == [] {
        return Threw(NoSuchElement);
      }
      TakeHead();
      s := Completed;
    }

    /** The rest of the multiplayer `nextPiece()` once the queue is known
        not to be empty: the head is removed into the following slot, the
        listener is told and two pieces are requested. */
    method TakeHead()
      requires Core() && multiplayer && queue != [] && currentPiece != null
      modifies this`followingPiece, this`queue, this`advances, this`events, this`outbox
      ensures Core()
      ensures followingPiece == old(queue)[0] && queue == old(queue)[1..] && advances == old(advances) + 1
      ensures events == old(events) + [PiecesShown(currentPiece, followingPiece)]
      ensures outbox == old(outbox) + Requests(2)
    {
      followingPiece := queue[0];
      queue := queue[1..];
      advances := advances + 1;
      events := events + [PiecesShown(currentPiece, followingPiece)];
      RequestPieces(2);
    }

    /** A listener call. */
    method Notify(e: Event)
      requires Core()
      modifies this`events
      ensures Core() && events == old(events) + [e]
    {
      events := events + [e];
    }

    /** `calculateNewScore(lines, blocks)`. */
    method CalculateNewScore(lines: int, blocks: int)
      modifies this`score
      ensures score == old(score) + ScoreGain(lines, blocks, multiplier)
    {
      score := score + lines * blocks * 10 * multiplier;
    }

    /** `calculateNewLevel()`: the level follows the score, with the
        level-up sound on a rise. */
    method CalculateNewLevel()
      modifies this`level, this`events
      ensures level == LevelFor(score)
      ensures events == old(events) + if old(level) < level then [Audio("level.wav")] else []
    {
      var oldLevel := level;
      level := JavaDiv(JavaDiv(score, 1000) * 1000, 1000);
      if oldLevel < level {
        events := events + [Audio("level.wav")];
      }
    }

    /** `calculateNewMultiplier(increase)`. */
    method CalculateNewMultiplier(increase: bool)
      modifies this`multiplier
      ensures multiplier == NextMultiplier(old(multiplier), increase)
    {
      if increase {
        multiplier := multiplier + 1;
      } else {
        multiplier := 1;
      }
    }

    /** `afterPiecePlayed()`: the full rows and columns are found and their
        cells emptied, then the score, level and multiplier follow the clear
        rule and the listeners hear of it. */
    method AfterPiecePlayed()
      requires Core() && Consistent(Stats()) && ValuesInRange(grid.Board())
      modifies grid.cells, this`score, this`level, this`multiplier, this`events
      ensures Core() && Consistent(Stats()) && ValuesInRange(grid.Board())
      ensures grid.Board() == Cleared(old(grid.Board()), ClearedCells(old(grid.Board()), cols, rows))
      ensures Stats() == AfterClear(old(Stats()), LineCount(old(grid.Board()), cols, rows),
                                    |ClearedCells(old(grid.Board()), cols, rows)|)
      ensures events == old(events) + ClearEvents(old(level), level, ClearedCells(old(grid.Board()), cols, rows),
                                                  LineCount(old(grid.Board()), cols, rows))
    {
      ClearKeepsInvariant(Stats(), grid.Board(), cols, rows);
      var toClear, lines := ClearLines();
      Rescore(toClear, lines);
    }

    /** The scans and the clearing of `afterPiecePlayed()`. */
    method ClearLines() returns (toClear: set<Coordinate>, lines: nat)
      requires Core()
      modifies grid.cells
      ensures Core()
      ensures toClear == ClearedCells(old(grid.Board()), cols, rows) && lines == LineCount(old(grid.Board()), cols, rows)
      ensures grid.Board() == Cleared(old(grid.Board()), toClear)
    {
      toClear, lines := ScanLines(grid);
      ClearCells(grid, toClear);
    }

    /** The scoring at the end of `afterPiecePlayed()`, for `lines` lines
        made of the cells `toClear`. */
    method Rescore(toClear: set<Coordinate>, lines: nat)
      modifies this`score, this`level, this`multiplier, this`events
      ensures Stats() == AfterClear(old(Stats()), lines, |toClear|)
      ensures events == old(events) + ClearEvents(old(level), level, toClear, lines)
    {
      if lines >= 1 && toClear != {} {
        CalculateNewScore(lines, |toClear|);
        CalculateNewLevel();
        events := events + [LinesCleared(toClear)];
      }
      CalculateNewMultiplier(lines >= 1);
    }

    /** `sendUpdatedBoardToServer()`: the `BOARD` message of the grid. */
    method SendUpdatedBoard()
      requires Core() && multiplayer
      modifies this`outbox
      ensures Core()
      ensures outbox == old(outbox) + [BoardMessage(grid.Board(), cols, rows)]
    {
      var msg := BuildBoardMessage(grid);
      OnlyRequestsArePieces(lives, grid.Board(), cols, rows);
      outbox := outbox + [msg];
    }

    /** `nextPiece()`, as the game at hand defines it. */
    method NextPiece() returns (s: Status)
      requires Core() && followingPiece != null
      modifies this`currentPiece, this`followingPiece, this`events, this`queue, this`advances,
        this`outbox, source, table.shapes
      ensures Core()
      ensures currentPiece == old(followingPiece)
      ensures s.Threw? <==> multiplayer && old(queue) == []
      ensures s.Threw? ==> && s.exception == NoSuchElement && followingPiece == old(followingPiece)
                           && queue == old(queue) && events == old(events) && outbox == old(outbox)
      ensures s.Completed? ==> && events == old(events) + [PiecesShown(currentPiece, followingPiece)]
                               && outbox == old(outbox) + if multiplayer then Requests(2) else []
      ensures !multiplayer ==> && fresh(followingPiece) && source.draws == old(source.draws) + 1
                               && followingPiece.value == source.spawn(old(source.draws)) + 1
      ensures multiplayer && s.Completed? ==> followingPiece == old(queue)[0] && queue == old(queue)[1..]
      ensures multiplayer ==> source.draws == old(source.draws)
    {
      if multiplayer {
        s := TakeQueuedPiece();
      } else {
        SpawnNextPiece();
        s := Completed;
      }
    }

    /** `handlePlayPiece()` after a successful placement: the placing
        sound, the next piece, the timer restarted at the level reached
        before the clear (the listener hears of it twice), then the clear
        rule; the multiplayer game finally sends the board. An exception
        from `nextPiece` or from the scheduler ends it early. */
    method HandlePlayPiece() returns (s: Status)
      requires Core() && Consistent(Stats()) && ValuesInRange(grid.Board()) && followingPiece != null
      modifies this`currentPiece, this`followingPiece, this`events, this`queue, this`advances,
        this`outbox, source, table.shapes, this`timer, grid.cells, this`score, this`level, this`multiplier
      ensures Core() && Consistent(Stats()) && ValuesInRange(grid.Board())
      ensures s == PlayOutcome(multiplayer && old(queue) == [], old(timer).ShutDown?)
      ensures currentPiece == old(followingPiece)
      ensures !multiplayer ==> && fresh(followingPiece) && source.draws == old(source.draws) + 1
                               && followingPiece.value == source.spawn(old(source.draws)) + 1
      ensures multiplayer ==> && followingPiece == (if old(queue) == [] then old(followingPiece) else old(queue)[0])
                              && queue == (if old(queue) == [] then [] else old(queue)[1..])
      ensures timer == if s.Completed? then Running(TimerDelay(old(level))) else old(timer)
      ensures grid.Board() == if s.Completed? then Cleared(old(grid.Board()), ClearedCells(old(grid.Board()), cols, rows))
                              else old(grid.Board())
      ensures Stats() == if s.Completed? then AfterClear(old(Stats()), LineCount(old(grid.Board()), cols, rows),
                                                         |ClearedCells(old(grid.Board()), cols, rows)|)
                         else old(Stats())
      ensures events == old(events) + [Audio("place.wav")]
                        + (if multiplayer && old(queue) == [] then [] else [PiecesShown(currentPiece, followingPiece)])
                        + (if s.Completed? then [GameLoopStarted, GameLoopStarted] else [])
                        + if s.Completed? then ClearEvents(old(level), level, ClearedCells(old(grid.Board()), cols, rows),
                                                            LineCount(old(grid.Board()), cols, rows))
                          else []
      ensures outbox == old(outbox) + (if multiplayer && old(queue) != [] then Requests(2) else [])
                        + if s.Completed? && multiplayer then [BoardMessage(grid.Board(), cols, rows)] else []
    {
      s := Advance();
      Settle(s);
    }

    /** The first half of `handlePlayPiece()`: the placing sound, the next
        piece, the timer restarted (`resetTimer`) and the loop listener
        called once more. */
    method Advance() returns (s: Status)
      requires Core() && followingPiece != null
      modifies this`currentPiece, this`followingPiece, this`events, this`queue, this`advances,
        this`outbox, source, table.shapes, this`timer
      ensures Core()
      ensures s == PlayOutcome(multiplayer && old(queue) == [], old(timer).ShutDown?)
      ensures currentPiece == old(followingPiece)
      ensures !multiplayer ==> && fresh(followingPiece) && source.draws == old(source.draws) + 1
                               && followingPiece.value == source.spawn(old(source.draws)) + 1
      ensures multiplayer ==> && followingPiece == (if old(queue) == [] then old(followingPiece) else old(queue)[0])
                              && queue == (if old(queue) == [] then [] else old(queue)[1..])
      ensures timer == if s.Completed? then Running(TimerDelay(level)) else old(timer)
      ensures events == old(events) + [Audio("place.wav")]
                        + (if multiplayer && old(queue) == [] then [] else [PiecesShown(currentPiece, followingPiece)])
                        + (if s.Completed? then [GameLoopStarted, GameLoopStarted] else [])
      ensures outbox == old(outbox) + if multiplayer && old(queue) != [] then Requests(2) else []
    {
      Notify(Audio("place.wav"));
      s := NextPiece();
      s := ResetTimer(s);
    }

    /** `resetTimer()` followed by one more call of the loop listener,
        reached only when `nextPiece()` (whose status is `prior`) did not
        throw. */
    method ResetTimer(prior: Status) returns (s: Status)
      requires Core() && currentPiece != null
      modifies this`timer, this`events
      ensures Core()
      ensures s == if prior.Threw? then prior else if old(timer).ShutDown? then Threw(RejectedExecution) else Completed
      ensures timer == if s.Completed? then Running(TimerDelay(level)) else old(timer)
      ensures events == old(events) + if s.Completed? then [GameLoopStarted, GameLoopStarted] else []
    {
      if prior.Threw? {
        return prior;
      }
      s := StartGameLoop();
      if s.Threw? {
        return;
      }
      Notify(GameLoopStarted);
    }

    /** The second half, reached only when the first one completed: the
        clear rule, and in the multiplayer game the board sent to the
        server. */
    method Settle(s: Status)
      requires Core() && Consistent(Stats()) && ValuesInRange(grid.Board())
      modifies grid.cells, this`score, this`level, this`multiplier, this`events, this`outbox
      ensures Core() && Consistent(Stats()) && ValuesInRange(grid.Board())
      ensures grid.Board() == if s.Completed? then Cleared(old(grid.Board()), ClearedCells(old(grid.Board()), cols, rows))
                              else old(grid.Board())
      ensures Stats() == if s.Completed? then AfterClear(old(Stats()), LineCount(old(grid.Board()), cols, rows),
                                                         |ClearedCells(old(grid.Board()), cols, rows)|)
                         else old(Stats())
      ensures events == old(events) + if s.Completed? then ClearEvents(old(level), level, ClearedCells(old(grid.Board()), cols, rows),
                                                                        LineCount(old(grid.Board()), cols, rows))
                                      else []
      ensures outbox == old(outbox) + if s.Completed? && multiplayer then [BoardMessage(grid.Board(), cols, rows)] else []
    {
      if s.Completed? {
        AfterPiecePlayed();
        if multiplayer {
          SendUpdatedBoard();
        }
      }
    }

    /** `blockClicked`: the current piece is played centred on the clicked
        block; on success the placement is handled, otherwise the failure
        sound plays and nothing else changes. */
    method BlockClicked(x: int, y: int) returns (s: Status)
      requires Valid() && currentPiece != null
      modifies this`currentPiece, this`followingPiece, this`events, this`queue, this`advances,
        this`outbox, source, table.shapes, this`timer, grid.cells, this`score, this`level, this`multiplier
      ensures Valid()
      ensures !CanPlace(old(grid.Board()), cols, rows, old(currentPiece.Shape()), x - 1, y - 1) ==>
        && s == Completed && grid.Board() == old(grid.Board()) && Stats() == old(Stats())
        && currentPiece == old(currentPiece) && followingPiece == old(followingPiece) && queue == old(queue)
        && timer == old(timer) && source.draws == old(source.draws)
        && events == old(events) + [Audio("fail.wav")] && outbox == old(outbox)
      ensures CanPlace(old(grid.Board()), cols, rows, old(currentPiece.Shape()), x - 1, y - 1) ==>
        && s == PlayOutcome(multiplayer && old(queue) == [], old(timer).ShutDown?)
        && currentPiece == old(followingPiece)
        && timer == (if s.Completed? then Running(TimerDelay(old(level))) else old(timer))
        && outbox == old(outbox) + (if multiplayer && old(queue) != [] then Requests(2) else [])
                     + (if s.Completed? && multiplayer then [BoardMessage(grid.Board(), cols, rows)] else [])
      ensures CanPlace(old(grid.Board()), cols, rows, old(currentPiece.Shape()), x - 1, y - 1) && !multiplayer ==>
        && fresh(followingPiece) && source.draws == old(source.draws) + 1
        && followingPiece.value == source.spawn(old(source.draws)) + 1
      ensures CanPlace(old(grid.Board()), cols, rows, old(currentPiece.Shape()), x - 1, y - 1) && multiplayer ==>
        && followingPiece == (if old(queue) == [] then old(followingPiece) else old(queue)[0])
        && queue == (if old(queue) == [] then [] else old(queue)[1..])
      ensures CanPlace(old(grid.Board()), cols, rows, old(currentPiece.Shape()), x - 1, y - 1) ==>
        ghost var placed := Placed(old(grid.Board()), old(currentPiece.Shape()), old(currentPiece.value), x - 1, y - 1);
        && grid.Board() == (if s.Completed? then Cleared(placed, ClearedCells(placed, cols, rows)) else placed)
        && Stats() == (if s.Completed? then AfterClear(old(Stats()), LineCount(placed, cols, rows), |ClearedCells(placed, cols, rows)|)
                       else old(Stats()))
        && events == old(events) + [Audio("place.wav")]
                     + (if multiplayer && old(queue) == [] then [] else [PiecesShown(currentPiece, followingPiece)])
                     + (if s.Completed? then [GameLoopStarted, GameLoopStarted] else [])
                     + (if s.Completed? then ClearEvents(old(level), level, ClearedCells(placed, cols, rows),
                                                         LineCount(placed, cols, rows))
                        else [])
    {
      var played := Place(x, y);
      if !played {
        Notify(Audio("fail.wav"));
        return Completed;
      }
      ghost var placed := grid.Board();
      assert placed == Placed(old(grid.Board()), old(currentPiece.Shape()), old(currentPiece.value), x - 1, y - 1);
      PlacedInRange(old(grid.Board()), old(currentPiece.Shape()), old(currentPiece.value), x - 1, y - 1);
      s := HandlePlayPiece();
    }

    /** `grid.playPiece(getCurrentPiece(), x, y)`: a 3x3 piece is centred on
        the clicked block. */
    method Place(x: int, y: int) returns (played: bool)
      requires Core() && currentPiece != null
      modifies grid.cells
      ensures Core()
      ensures played == CanPlace(old(grid.Board()), cols, rows, currentPiece.Shape(), x - 1, y - 1)
      ensures grid.Board() == if played then Placed(old(grid.Board()), currentPiece.Shape(), currentPiece.value, x - 1, y - 1)
                              else old(grid.Board())
    {
      played := grid.PlayPiece(currentPiece, x, y);
    }

    /** `endGame()`: the game loop is shut down and the end-game listener
        told; with no listener the game is started again, which the shut
        down scheduler refuses once the new game is set up. The multiplayer
        game then tells the server it has left, unless that refusal escaped. */
    method EndGame() returns (s: Status)
      requires Core() && Consistent(Stats()) && ValuesInRange(grid.Board())
      modifies this`timer, this`events, this`outbox, this`score, this`level, this`lives, this`multiplier,
        this`currentPiece, this`followingPiece, grid.cells, source, table.shapes
      ensures Valid() && timer == ShutDown
      ensures hasEndGameListener ==> && s == Completed && Stats() == old(Stats()) && grid.Board() == old(grid.Board())
                                     && currentPiece == old(currentPiece) && followingPiece == old(followingPiece)
                                     && events == old(events) + [GameEnded]
                                     && outbox == old(outbox) + if multiplayer then ["DIE"] else []
      ensures !hasEndGameListener ==> && s == Threw(RejectedExecution) && Stats() == StartFigures
                                      && grid.Board() == Filled(cols, rows, 0) && outbox == old(outbox)
                                      && fresh(currentPiece) && fresh(followingPiece)
                                      && source.draws == old(source.draws) + 2
                                      && events == old(events) + [PiecesShown(currentPiece, followingPiece)]
    {
      ShutdownGameLoop();
      if hasEndGameListener {
        AnnounceEnd();
        s := Completed;
      } else {
        s := Start();
      }
    }

    /** The end-game listener told, and in the multiplayer game `DIE` sent. */
    method AnnounceEnd()
      requires Core() && Consistent(Stats()) && timer == ShutDown && ValuesInRange(grid.Board())
      modifies this`events, this`outbox
      ensures Valid() && timer == ShutDown
      ensures events == old(events) + [GameEnded]
      ensures outbox == old(outbox) + if multiplayer then ["DIE"] else []
    {
      Notify(GameEnded);
      if multiplayer {
        SendDie();
      }
    }

    /** `shutdownGameLoop()`: the scheduler is shut down for good. */
    method ShutdownGameLoop()
      requires Core()
      modifies this`timer
      ensures Core() && timer == ShutDown
    {
      timer := ShutDown;
    }

    /** The multiplayer game's `DIE` message. */
    method SendDie()
      requires Core() && multiplayer
      modifies this`outbox
      ensures Core() && outbox == old(outbox) + ["DIE"]
    {
      assert "DIE"[0] != "PIECE"[0];
      outbox := outbox + ["DIE"];
    }

    /** `remoteEndGame()`: the loop is shut down and the listener, if any,
        told; the game is not restarted. The multiplayer game then sends
        `DIE`. */
    method RemoteEndGame()
      requires Core()
      modifies this`timer, this`events, this`outbox
      ensures Core() && timer == ShutDown
      ensures events == old(events) + if hasEndGameListener then [GameEnded] else []
      ensures outbox == old(outbox) + if multiplayer then ["DIE"] else []
    {
      ShutdownGameLoop();
      if hasEndGameListener {
        Notify(GameEnded);
      }
      if multiplayer {
        SendDie();
      }
    }

    /** The rest of `gameLoop()` when lives remain: the next piece, the
        multiplier back to 1 and the timer restarted (`resetTimer`). */
    method Resume() returns (s: Status)
      requires Core() && followingPiece != null && timer.Running? && Consistent(Stats()) && lives >= 0
      requires ValuesInRange(grid.Board())
      modifies this`timer, this`events, this`outbox, this`multiplier,
        this`currentPiece, this`followingPiece, this`queue, this`advances, source, table.shapes
      ensures Valid() && !timer.ShutDown? && Stats() == old(Stats()).(multiplier := multiplier)
      ensures currentPiece == old(followingPiece)
      ensures s.Threw? <==> multiplayer && old(queue) == []
      ensures s.Threw? ==> outbox == old(outbox)
      ensures s.Threw? ==> s.exception == NoSuchElement && multiplier == old(multiplier) && timer == old(timer)
      ensures s.Threw? ==> followingPiece == old(followingPiece) && queue == old(queue) && events == old(events)
      ensures !multiplayer ==> && fresh(followingPiece) && source.draws == old(source.draws) + 1
                               && followingPiece.value == source.spawn(old(source.draws)) + 1
      ensures multiplayer ==> source.draws == old(source.draws)
      ensures multiplayer && old(queue) != [] ==> followingPiece == old(queue)[0] && queue == old(queue)[1..]
      ensures s.Completed? ==> && multiplier == 1 && timer == Running(TimerDelay(level))
                               && events == old(events) + [PiecesShown(currentPiece, followingPiece), GameLoopStarted]
                               && outbox == old(outbox) + if multiplayer then Requests(2) else []
    {
      s := NextPiece();
      assert Stats() == old(Stats()) && timer == old(timer);
      if s.Threw? {
        return;
      }
      s := Restart();
    }

    /** `multiplier.set(1)` and `resetTimer()` at the end of `gameLoop()`. */
    method Restart() returns (s: Status)
      requires Core() && currentPiece != null && timer.Running? && Consistent(Stats()) && lives >= 0
      requires ValuesInRange(grid.Board())
      modifies this`timer, this`events, this`multiplier
      ensures Valid() && s == Completed && Stats() == old(Stats()).(multiplier := 1)
      ensures timer == Running(TimerDelay(level)) && events == old(events) + [GameLoopStarted]
    {
      multiplier := 1;
      s := StartGameLoop();
    }

    /** `gameLoop()`, one expiry of the timer: a life is lost; below zero
        lives the game ends, otherwise the next piece comes up, the
        multiplier drops to 1 and the timer restarts. */
    method Tick() returns (s: Status)
      requires Valid() && timer.Running?
      modifies this`timer, this`events, this`outbox, this`score, this`level, this`lives, this`multiplier,
        this`currentPiece, this`followingPiece, this`queue, this`advances, grid.cells, source, table.shapes
      ensures Valid()
      ensures multiplayer ==> |outbox| > |old(outbox)| && outbox[|old(outbox)|] == LivesMessage(old(lives) - 1)
      ensures old(lives) >= 1 ==> && lives == old(lives) - 1 && currentPiece == old(followingPiece)
                                  && score == old(score) && !timer.ShutDown? && grid.Board() == old(grid.Board())
                                  && (s.Completed? ==> multiplier == 1 && timer == Running(TimerDelay(level)))
      ensures old(lives) >= 1 ==> (s.Threw? <==> multiplayer && old(queue) == [])
      ensures old(lives) >= 1 && !multiplayer ==> && fresh(followingPiece) && source.draws == old(source.draws) + 1
                                                  && followingPiece.value == source.spawn(old(source.draws)) + 1
      ensures old(lives) >= 1 && multiplayer ==> source.draws == old(source.draws)
      ensures old(lives) >= 1 && multiplayer && old(queue) != [] ==> followingPiece == old(queue)[0] && queue == old(queue)[1..]
      ensures old(lives) >= 1 && s.Threw? ==>
        && s == Threw(NoSuchElement) && followingPiece == old(followingPiece) && queue == old(queue)
        && timer == old(timer) && multiplier == old(multiplier)
        && events == old(events) + [Audio("lifelose.wav")]
        && outbox == old(outbox) + [LivesMessage(old(lives) - 1)]
      ensures old(lives) >= 1 && s.Completed? ==>
        && events == old(events) + [Audio("lifelose.wav")] + [PiecesShown(currentPiece, followingPiece), GameLoopStarted]
        && outbox == old(outbox) + (if multiplayer then [LivesMessage(old(lives) - 1)] else [])
                     + (if multiplayer then Requests(2) else [])
      ensures old(lives) == 0 ==> timer == ShutDown && queue == old(queue)
      ensures old(lives) == 0 && hasEndGameListener ==>
        && s == Completed && lives == -1 && Stats() == old(Stats()).(lives := -1) && grid.Board() == old(grid.Board())
        && currentPiece == old(currentPiece) && followingPiece == old(followingPiece)
        && events == old(events) + [Audio("lifelose.wav")] + [GameEnded]
        && outbox == old(outbox) + (if multiplayer then [LivesMessage(-1)] else []) + (if multiplayer then ["DIE"] else [])
      ensures old(lives) == 0 && !hasEndGameListener ==>
        && s == Threw(RejectedExecution) && Stats() == StartFigures && grid.Board() == Filled(cols, rows, 0)
        && fresh(currentPiece) && fresh(followingPiece) && source.draws == old(source.draws) + 2
        && events == old(events) + [Audio("lifelose.wav")] + [PiecesShown(currentPiece, followingPiece)]
        && outbox == old(outbox) + if multiplayer then [LivesMessage(-1)] else []
    {
      LoseLife();
      s := AfterLifeLost();
    }

    /** The rest of `gameLoop()` once the life is gone: below zero lives
        the game ends, otherwise it resumes. */
    method AfterLifeLost() returns (s: Status)
      requires Core() && Consistent(Stats()) && ValuesInRange(grid.Board()) && timer.Running? && lives >= -1
      modifies this`timer, this`events, this`outbox, this`score, this`level, this`lives, this`multiplier,
        this`currentPiece, this`followingPiece, this`queue, this`advances, grid.cells, source, table.shapes
      ensures Valid()
      ensures old(lives) >= 0 ==> && lives == old(lives) && currentPiece == old(followingPiece)
                                  && score == old(score) && !timer.ShutDown? && grid.Board() == old(grid.Board())
                                  && (s.Threw? <==> multiplayer && old(queue) == [])
      ensures old(lives) >= 0 && !multiplayer ==> && fresh(followingPiece) && source.draws == old(source.draws) + 1
                                                  && followingPiece.value == source.spawn(old(source.draws)) + 1
      ensures old(lives) >= 0 && multiplayer ==> source.draws == old(source.draws)
      ensures old(lives) >= 0 && multiplayer && old(queue) != [] ==> followingPiece == old(queue)[0] && queue == old(queue)[1..]
      ensures old(lives) >= 0 && s.Threw? ==>
        && s == Threw(NoSuchElement) && followingPiece == old(followingPiece) && queue == old(queue)
        && timer == old(timer) && multiplier == old(multiplier) && events == old(events) && outbox == old(outbox)
      ensures old(lives) >= 0 && s.Completed? ==>
        && multiplier == 1 && timer == Running(TimerDelay(level))
        && events == old(events) + [PiecesShown(currentPiece, followingPiece), GameLoopStarted]
        && outbox == old(outbox) + if multiplayer then Requests(2) else []
      ensures old(lives) < 0 ==> timer == ShutDown && queue == old(queue)
      ensures old(lives) < 0 && hasEndGameListener ==>
        && s == Completed && Stats() == old(Stats()) && grid.Board() == old(grid.Board())
        && currentPiece == old(currentPiece) && followingPiece == old(followingPiece)
        && events == old(events) + [GameEnded]
        && outbox == old(outbox) + if multiplayer then ["DIE"] else []
      ensures old(lives) < 0 && !hasEndGameListener ==>
        && s == Threw(RejectedExecution) && Stats() == StartFigures && grid.Board() == Filled(cols, rows, 0)
        && fresh(currentPiece) && fresh(followingPiece) && source.draws == old(source.draws) + 2
        && events == old(events) + [PiecesShown(currentPiece, followingPiece)] && outbox == old(outbox)
    {
      if lives < 0 {
        s := EndGame();
      } else {
        s := Resume();
      }
    }

    /** `rotateCurrentPiece()`: a quarter turn of the current piece, which
        the rotation listener is shown. */
    method RotateCurrentPiece()
      requires Core() && currentPiece != null
      modifies currentPiece`blocks, this`events
      ensures Core()
      ensures currentPiece.Shape() == Rotated(old(currentPiece.Shape()))
      ensures events == old(events) + [PieceRotated(currentPiece)]
    {
      currentPiece.Rotate();
      Notify(PieceRotated(currentPiece));
    }

    /** `rotateCurrentPiece(rotations)`: that many quarter turns, each shown
        to the listener; none for a count that is not positive. */
    method RotateCurrentPieceTimes(rotations: int)
      requires Core() && currentPiece != null
      modifies currentPiece`blocks, this`events
      ensures Core()
      ensures currentPiece.Shape() == Rotations(old(currentPiece.Shape()), rotations)
      ensures events == old(events) + Repeated(PieceRotated(currentPiece), rotations)
    {
      ghost var start := currentPiece.Shape();
      var turns := if rotations <= 0 then 0 else rotations;
      for i := 0 to turns
        invariant Core()
        invariant currentPiece.Shape() == Rotations(start, i)
        invariant events == old(events) + Repeated(PieceRotated(currentPiece), i)
      {
        ghost var before := currentPiece.Shape();
        RotateCurrentPiece();
        assert currentPiece.Shape() == Rotated(before) == Rotations(start, i + 1);
        assert Repeated(PieceRotated(currentPiece), i + 1) == Repeated(PieceRotated(currentPiece), i) + [PieceRotated(currentPiece)];
      }
      assert Rotations(start, rotations) == Rotations(start, turns);
    }

    /** `swapCurrentPiece()`: the current and the following piece change
        places and the listener is shown both. */
    method SwapCurrentPiece()
      requires Core()
      modifies this`currentPiece, this`followingPiece, this`events
      ensures Core()
      ensures currentPiece == old(followingPiece) && followingPiece == old(currentPiece)
      ensures events == old(events) + [PiecesShown(currentPiece, followingPiece)]
    {
      currentPiece, followingPiece := followingPiece, currentPiece;
      events := events + [PiecesShown(currentPiece, followingPiece)];
    }

    /** Swapping twice puts both pieces back where they were. */
    method SwapTwice()
      requires Core()
      modifies this`currentPiece, this`followingPiece, this`events
      ensures Core()
      ensures currentPiece == old(currentPiece) && followingPiece == old(followingPiece)
      ensures events == old(events) + [PiecesShown(old(followingPiece), old(currentPiece)),
                                        PiecesShown(old(currentPiece), old(followingPiece))]
    {
      SwapCurrentPiece();
      SwapCurrentPiece();
    }

    /** `dropCurrentPiece()`: the current piece is discarded for the next. */
    method DropCurrentPiece() returns (s: Status)
      requires Core() && followingPiece != null
      modifies this`currentPiece, this`followingPiece, this`events, this`queue, this`advances,
        this`outbox, source, table.shapes
      ensures Core()
      ensures currentPiece == old(followingPiece)
      ensures s.Threw? <==> multiplayer && old(queue) == []
      ensures s.Threw? ==> && s.exception == NoSuchElement && followingPiece == old(followingPiece)
                           && queue == old(queue) && events == old(events) && outbox == old(outbox)
      ensures s.Completed? ==> && events == old(events) + [PiecesShown(currentPiece, followingPiece)]
                               && outbox == old(outbox) + if multiplayer then Requests(2) else []
      ensures !multiplayer ==> && fresh(followingPiece) && source.draws == old(source.draws) + 1
                               && followingPiece.value == source.spawn(old(source.draws)) + 1
      ensures multiplayer && s.Completed? ==> followingPiece == old(queue)[0] && queue == old(queue)[1..]
      ensures multiplayer ==> source.draws == old(source.draws)
    {
      s := NextPiece();
    }

    /** `handleServerMessage(msg)` of the multiplayer game: a `PIECE n`
        message adds the piece of value `n + 1` to the back of the queue;
        other messages are ignored; a message too short to cut, a number
        that does not parse or a piece number outside the catalogue
        escapes as an exception with the queue as it was. */
    method HandleServerMessage(msg: string) returns (s: Status)
      requires Core() && multiplayer
      modifies this`queue, this`received, table.shapes
      ensures Core()
      ensures ReadPieceMessage(msg).Ignored? ==> s == Completed && queue == old(queue)
      ensures ReadPieceMessage(msg).Failed? ==> s == Threw(ReadPieceMessage(msg).exception) && queue == old(queue)
      ensures ReadPieceMessage(msg).Piece? && !(0 <= ReadPieceMessage(msg).number < PieceCount) ==>
        s == Threw(IndexOutOfBounds) && queue == old(queue)
      ensures ReadPieceMessage(msg).Piece? && 0 <= ReadPieceMessage(msg).number < PieceCount ==>
        && s == Completed && |queue| == |old(queue)| + 1 && queue[..|old(queue)|] == old(queue)
        && fresh(queue[|old(queue)|]) && queue[|old(queue)|].value == ReadPieceMessage(msg).number + 1
    {
      match ReadPieceMessage(msg)
      case Ignored =>
        s := Completed;
      case Failed(e) =>
        s := Threw(e);
      case Piece(n) =>
        var r := CreatePiece(table, n);
        if r.Err? {
          return Threw(r.exception);
        }
        Enqueue(r.value);
        s := Completed;
    }

    /** `receivedGamePieces.add(piece)`. */
    method Enqueue(piece: GamePiece)
      requires Core() && multiplayer && PieceFits(piece, grid.cells)
      modifies this`queue, this`received
      ensures Core() && queue == old(queue) + [piece]
    {
      assert (received + [piece])[advances..] == received[advances..] + [piece];
      queue := queue + [piece];
      received := received + [piece];
    }

    /** A single-player game that starts with three lives and a running
        timer survives three timeouts in a row, each taking one life and
        restarting the timer, and the fourth shuts the game loop down. */
    method FourTimeouts() returns (first: Status, second: Status, third: Status, fourth: Status)
      requires Valid() && timer.Running? && lives == 3 && !multiplayer
      modifies this`timer, this`events, this`outbox, this`score, this`level, this`lives, this`multiplier,
        this`currentPiece, this`followingPiece, this`queue, this`advances, grid.cells, source, table.shapes
      ensures Valid()
      ensures first == Completed && second == Completed && third == Completed
      ensures timer == ShutDown
      ensures hasEndGameListener ==> fourth == Completed && lives == -1
      ensures !hasEndGameListener ==> fourth == Threw(RejectedExecution) && Stats() == StartFigures
    {
      first := Tick();
      second := Tick();
      third := Tick();
      assert lives == 0;
      fourth := Tick();
    }
  }
}
