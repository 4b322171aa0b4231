/** The arithmetic of the game engine (java/uk/ac/soton/comp1206/game/Game.java)
    as values: the four figures shown to the player, what a placement does
    to them, the level and the timer delay, and how an inbound `PIECE`
    message of the multiplayer game (MultiplayerGame.java) is read. */
module GameRules {
  import opened Outcomes
  import opened JavaText
  import opened Pieces
  import opened Grids
  import opened Lines
  import opened BoardMessages

  /** Score, level, lives and score multiplier. */
  datatype Figures = Figures(score: int, level: int, lives: int, multiplier: int)

  /** `initialiseGame`: no points, level 0, three lives, multiplier 1. */
  const StartFigures: Figures := Figures(0, 0, 3, 1)

  /** What holds of the figures throughout a game: the score is never
      negative, the level is the score's thousands, the multiplier is at
      least 1 and the lives count down from 3 to at most -1. */
  predicate Consistent(f: Figures) {
    f.score >= 0 && f.level == f.score / 1000 && f.multiplier >= 1 && -1 <= f.lives <= 3
  }

  /** `calculateNewLevel`: the score divided by 1000, multiplied by 1000 and
      divided by 1000 again, in Java's truncating division. */
  function LevelFor(score: int): (level: int)
    ensures score >= 0 ==> level >= 0 && level * 1000 <= score < (level + 1) * 1000
  {
    JavaDiv(JavaDiv(score, 1000) * 1000, 1000)
  }

  /** For a score that is not negative the roundabout formula is plain
      integer division. */
  lemma LevelIsThousands(score: int)
    requires score >= 0
    ensures LevelFor(score) == score / 1000
  {
    var q := score / 1000;
    assert JavaDiv(score, 1000) == q;
    assert JavaDiv(q * 1000, 1000) == q;
  }

  /** `calculateNewMultiplier`: one more after a placement that cleared a
      line, back to 1 otherwise. */
  function NextMultiplier(multiplier: int, cleared: bool): (m: int)
    ensures multiplier >= 1 ==> m >= 1
    ensures cleared ==> m == multiplier + 1
    ensures !cleared ==> m == 1
  {
    if cleared then multiplier + 1 else 1
  }

  /** The end of `afterPiecePlayed` for `lines` lines made of `blocks`
      distinct cells: when something was cleared the score grows by
      `calculateNewScore` at the multiplier from before the placement and
      the level follows the score; then the multiplier is updated. Lives
      are untouched. */
  function AfterClear(f: Figures, lines: nat, blocks: nat): (g: Figures)
    ensures g.lives == f.lives
    ensures g.multiplier == NextMultiplier(f.multiplier, lines >= 1)
  {
    if lines >= 1 && blocks > 0 then
      var score := f.score + ScoreGain(lines, blocks, f.multiplier);
      Figures(score, LevelFor(score), f.lives, NextMultiplier(f.multiplier, true))
    else
      Figures(f.score, f.level, f.lives, NextMultiplier(f.multiplier, lines >= 1))
  }

  /** A placement keeps the figures consistent, never lowers the score and
      adds exactly `lines * blocks * 10 * multiplier` points when a line was
      cleared, nothing otherwise. */
  lemma AfterClearKeepsConsistent(f: Figures, lines: nat, blocks: nat)
    requires Consistent(f)
    ensures Consistent(AfterClear(f, lines, blocks))
    ensures AfterClear(f, lines, blocks).score >= f.score
    ensures AfterClear(f, lines, blocks).score - f.score ==
      if lines >= 1 && blocks > 0 then lines * blocks * 10 * f.multiplier else 0
  {
    if lines >= 1 && blocks > 0 {
      LevelIsThousands(AfterClear(f, lines, blocks).score);
    }
  }

  /** The level never falls during a game, and it rises only on a
      placement that scored, past the next thousand points. */
  lemma LevelRisesOnlyWithPoints(f: Figures, lines: nat, blocks: nat)
    requires Consistent(f)
    ensures AfterClear(f, lines, blocks).level >= f.level
    ensures AfterClear(f, lines, blocks).level > f.level ==>
      lines >= 1 && blocks > 0 && AfterClear(f, lines, blocks).score >= (f.level + 1) * 1000
  {
    AfterClearKeepsConsistent(f, lines, blocks);
  }

  /** `getTimerDelay`: the milliseconds before a piece times out, 12 seconds
      at level 0, half a second less per level, never under 2.5 seconds. */
  function TimerDelay(level: int): (delay: int)
    ensures delay >= 2500
    ensures delay >= 12000 - 500 * level
    ensures delay == 2500 || delay == 12000 - 500 * level
  {
    if 2500 >= 12000 - 500 * level then 2500 else 12000 - 500 * level
  }

  /** The delays at the levels a player meets: 12000 at level 0, 7000 at
      level 10, and the floor of 2500 from level 19 on. */
  lemma TimerDelayMilestones(level: int)
    ensures TimerDelay(0) == 12000 && TimerDelay(10) == 7000
    ensures level >= 19 ==> TimerDelay(level) == 2500
    ensures level < 19 ==> TimerDelay(level) > 2500
  {
  }

  /** A higher level never gives more time. */
  lemma TimerDelayMonotonic(low: int, high: int)
    requires low <= high
    ensures TimerDelay(high) <= TimerDelay(low)
  {
  }

  /** How the multiplayer game reads a message from the server. */
  datatype Inbound =
    | Ignored              // not a `PIECE` message
    | Piece(number: int)   // `PIECE n`: piece number `n`, the piece of value `n + 1`
    | Failed(exception: Exception)

  /** `handleServerMessage`: a message starting `PIECE` is cut after its
      sixth character and the rest parsed as an `int`; a message that is
      only `PIECE` is too short to cut. */
  function ReadPieceMessage(msg: string): (r: Inbound)
    ensures r.Ignored? <==> !StartsWith(msg, "PIECE")
    ensures r == Failed(StringIndexOutOfBounds) <==> StartsWith(msg, "PIECE") && |msg| < 6
    ensures r.Piece? ==> StartsWith(msg, "PIECE") && ParseInt(msg[6..]) == Some(r.number)
    ensures r.Failed? ==> r.exception in {StringIndexOutOfBounds, NumberFormat}
  {
    if !StartsWith(msg, "PIECE") then Ignored
    else if |msg| < 6 then Failed(StringIndexOutOfBounds)
    else match ParseInt(msg[6..])
      case None => Failed(NumberFormat)
      case Some(n) => Piece(n)
  }

  /** The server's `PIECE n` announcement is read back as piece number `n`. */
  lemma ReadPieceAnnouncement(n: int)
    requires InIntRange(n)
    ensures ReadPieceMessage("PIECE " + IntToString(n)) == Piece(n)
  {
    var msg := "PIECE " + IntToString(n);
    assert msg[..5] == "PIECE";
    assert msg[6..] == IntToString(n);
    ParseIntToString(n);
  }

  /** The `LIVES n` report. */
  function LivesMessage(lives: int): (msg: string)
    ensures StartsWith(msg, "LIVES ")
  {
    "LIVES " + IntToString(lives)
  }

  /** Every message the game sends other than a piece request is told
      apart from one by its first letter. */
  lemma OnlyRequestsArePieces(lives: int, b: Matrix, cols: nat, rows: nat)
    requires IsBoard(b, cols, rows)
    ensures LivesMessage(lives) != "PIECE" && "DIE" != "PIECE"
    ensures BoardMessage(b, cols, rows) != "PIECE"
  {
    assert LivesMessage(lives)[0] == 'L';
    assert BoardMessage(b, cols, rows)[0] == 'B';
  }
}
