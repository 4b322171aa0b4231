/** The leaderboard of the multiplayer game screen
    (java/uk/ac/soton/comp1206/scene/MultiplayerScene.java): the server's
    `SCORES` message of `name:score:lives` lines, the sorted list handed to
    the end-of-game screen, and the first five entries shown beside the
    board. */
module MultiplayerLeaderboard {
  import opened Outcomes
  import opened JavaText
  import opened Ranking
  import ScoresScreen

  /** `Leaderboard.LeaderboardEntry`: a player, their score, their lives and
      whether they are still in the game. */
  datatype Entry = Entry(name: string, score: int, lives: int, alive: bool)

  /** `maxLeaderboardEntries`. */
  const MaxLeaderboardEntries: nat := 5

  /** The sort key, `LeaderboardEntry::getScore`. */
  function EntryScore(e: Entry): int { e.score }

  // ---------------------------------------------------------------------
  // The line format

  /** The line the server sends for a player. */
  function EntryLine(name: string, score: int, lives: int): string {
    name + ":" + IntToString(score) + ":" + IntToString(lives)
  }

  /** A line of `parseStringScores`: it must split on `:` into exactly three
      parts; a lives part of exactly `-1` marks the player out of the game,
      any other lives part must parse as an `int` and marks the player alive;
      the score part must parse as an `int`. A line that fails any of these
      is skipped. */
  function ParseEntryLine(line: string): (r: Option<Entry>)
    ensures r.Some? ==> StartsWith(line, r.value.name) && ':' !in r.value.name
    ensures r.Some? && !r.value.alive ==> r.value.lives == -1
    ensures ':' !in line ==> r == None
  {
    var parts := Split(line, ':');
    if |parts| != 3 then None
    else
      var lives := if parts[2] == "-1" then Some(-1) else ParseInt(parts[2]);
      match lives
      case None => None
      case Some(l) =>
        match ParseInt(parts[1])
        case None => None
        case Some(s) =>
          ScoresScreen.SplitPrefix(line, ':');
          Some(Entry(parts[0], s, l, parts[2] != "-1"))
  }

  /** The text of an `int` is `-1` only for -1. */
  lemma MinusOneText(n: int)
    ensures IntToString(n) == "-1" <==> n == -1
  {
    if n >= 0 {
      assert IntToString(n)[0] != '-';
    } else if IntToString(n) == "-1" {
      assert NatToString(-n) == IntToString(n)[1..] == "1";
      assert DigitsValue("1") == 1;
    } else {
      assert NatToString(1) == "1";
    }
  }

  /** The line sent for a player is read back as that player, alive exactly
      when the lives are not -1. */
  lemma EntryLineRoundTrip(name: string, score: int, lives: int)
    requires ':' !in name && InIntRange(score) && InIntRange(lives)
    ensures ParseEntryLine(EntryLine(name, score, lives)) == Some(Entry(name, score, lives, lives != -1))
  {
    var s, l := IntToString(score), IntToString(lives);
    IntToStringHasNoSeparator(score, ':');
    IntToStringHasNoSeparator(lives, ':');
    var parts := [name, s, l];
    assert Join(parts, ':') == EntryLine(name, score, lives) by {
      assert Join(parts[1..], ':') == s + ":" + l by {
        assert Join(parts[1..][1..], ':') == l;
      }
    }
    SplitOfJoin(parts, ':');
    MinusOneText(lives);
    ParseIntToString(score);
    ParseIntToString(lives);
  }

  /** A line whose score is not a number is skipped, whatever its lives. */
  lemma BadScoreSkipped(name: string, score: string, lives: string)
    requires ':' !in name && ':' !in score && ':' !in lives && lives != ""
    requires ParseInt(score).None?
    ensures ParseEntryLine(name + ":" + score + ":" + lives) == None
  {
    var parts := [name, score, lives];
    assert Join(parts, ':') == name + ":" + score + ":" + lives by {
      assert Join(parts[1..], ':') == score + ":" + lives by {
        assert Join(parts[1..][1..], ':') == lives;
      }
    }
    SplitOfJoin(parts, ':');
  }

  /** The entries of the lines that parse, in the order of the lines. */
  function ParsedEntries(lines: seq<string>): (r: seq<Entry>)
    ensures |r| <= |lines|
  {
    ParsedLines(lines, ParseEntryLine)
  }

  /** A line that is skipped takes nothing away from the lines around it. */
  lemma SkippedLineIsHarmless(before: seq<string>, line: string, after: seq<string>)
    requires ParseEntryLine(line) == None
    ensures ParsedEntries(before + [line] + after) == ParsedEntries(before) + ParsedEntries(after)
  {
    ParsedLinesAppend(before + [line], after, ParseEntryLine);
    ParsedLinesSnoc(before, line, ParseEntryLine);
  }

  /** `parseStringScores`: the text after `SCORES ` is split into lines and
      each line that parses becomes an entry; a message too short to cut
      throws. */
  method ParseStringScores(msg: string) returns (r: Result<seq<Entry>>)
    ensures |msg| < 7 ==> r == Err(StringIndexOutOfBounds)
    ensures |msg| >= 7 ==> r == Ok(ParsedEntries(Split(msg[7..], '\n')))
  {
    if |msg| < |"SCORES "| {
      return Err(StringIndexOutOfBounds);
    }
    var lines := Split(msg[|"SCORES "|..], '\n');
    var entries: seq<Entry> := [];
    for i := 0 to |lines|
      invariant entries == ParsedEntries(lines[..i])
    {
      ParsedLinesStep(lines, i, ParseEntryLine);
      var parsed := ParseEntryLine(lines[i]);
      if parsed.Some? {
        entries := entries + [parsed.value];
      }
    }
    assert lines[..|lines|] == lines;
    r := Ok(entries);
  }

  // ---------------------------------------------------------------------
  // The standings

  /** The entries as the end-of-game screen's `Score` records, in order. */
  function AsScores(entries: seq<Entry>): (r: seq<ScoresScreen.Score>)
    ensures |r| == |entries|
    ensures forall i :: 0 <= i < |r| ==> r[i].name == entries[i].name && r[i].score == entries[i].score
  {
    seq(|entries|, i requires 0 <= i < |entries| => ScoresScreen.Score(entries[i].name, entries[i].score))
  }

  /** The scene's state: the game's `allScores` list and the leaderboard
      entries on show. */
  class Scene {
    var allScores: seq<ScoresScreen.Score>
    var leaderboard: seq<Entry>

    constructor ()
      ensures allScores == [] && leaderboard == []
    {
      allScores := [];
      leaderboard := [];
    }

    /** `handleServerMessage`: a message starting `SCORES` is parsed, the
        entries sorted by score, highest first; every entry goes to
        `allScores` and the first five to the leaderboard. Other messages
        change nothing, and a bare `SCORES` throws before anything changes. */
    method HandleServerMessage(msg: string) returns (s: Status)
      modifies this
      ensures !StartsWith(msg, "SCORES") ==> s == Completed && unchanged(this)
      ensures StartsWith(msg, "SCORES") && |msg| < 7 ==> s == Threw(StringIndexOutOfBounds) && unchanged(this)
      ensures StartsWith(msg, "SCORES") && |msg| >= 7 ==>
        var sorted := SortDescending(ParsedEntries(Split(msg[7..], '\n')), EntryScore);
        && s == Completed
        && allScores == AsScores(sorted)
        && leaderboard == Top(sorted, MaxLeaderboardEntries)
    {
      if !StartsWith(msg, "SCORES") {
        return Completed;
      }
      var parsed := ParseStringScores(msg);
      if parsed.Err? {
        return Threw(parsed.exception);
      }
      var sorted := SortDescending(parsed.value, EntryScore);
      allScores := AsScores(sorted);
      leaderboard := Top(sorted, MaxLeaderboardEntries);
      s := Completed;
    }
  }

  /** What the scene holds after a `SCORES` list: `allScores` has every entry
      once, highest score first, ties in the order the server sent them; the
      leaderboard is at most five entries, the head of that same list, each
      scoring at least as much as every player left off. */
  lemma StandingsRanked(entries: seq<Entry>, k: int)
    ensures var sorted := SortDescending(entries, EntryScore);
            var board := Top(sorted, MaxLeaderboardEntries);
            && multiset(sorted) == multiset(entries)
            && Descending(AsScores(sorted), ScoresScreen.ScoreOf)
            && WithKey(sorted, EntryScore, k) == WithKey(entries, EntryScore, k)
            && |board| == (if |entries| < MaxLeaderboardEntries then |entries| else MaxLeaderboardEntries)
            && AsScores(board) == AsScores(sorted)[..|board|]
            && (forall i, j :: 0 <= i < |board| <= j < |sorted| ==> board[i].score >= sorted[j].score)
  {
    var sorted := SortDescending(entries, EntryScore);
    SortPermutes(entries, EntryScore);
    SortIsDescending(entries, EntryScore);
    SortIsStable(entries, EntryScore, k);
    var board := Top(sorted, MaxLeaderboardEntries);
    assert AsScores(board) == AsScores(sorted)[..|board|];
  }
}
