/** The score lists of the end-of-game screen
    (java/uk/ac/soton/comp1206/scene/ScoresScene.java): the `name:score`
    lines of the server's `HISCORES` message and of the local score file,
    the "new high score" test, and the sorted, truncated lists shown. */
module ScoresScreen {
  import opened Outcomes
  import opened JavaText
  import opened Ranking

  /** The `Score` record. */
  datatype Score = Score(name: string, score: int)

  /** `maxScoreArraySize`: how many entries a score list shows. */
  const MaxScoreArraySize: nat := 10

  /** The sort key, `Score::getScore`. */
  function ScoreOf(s: Score): int { s.score }

  // ---------------------------------------------------------------------
  // The line format

  /** The line `writeLocalScores` writes for an entry, and the form of a
      line of the server's list. */
  function FormatScore(s: Score): (line: string)
    ensures |line| > |s.name| && line[..|s.name|] == s.name && line[|s.name|] == ':'
  {
    s.name + ":" + IntToString(s.score)
  }

  /** The lines for a whole list, in its order. */
  function FormattedLines(scores: seq<Score>): (lines: seq<string>)
    ensures |lines| == |scores|
    ensures forall i :: 0 <= i < |scores| ==> lines[i] == FormatScore(scores[i])
  {
    seq(|scores|, i requires 0 <= i < |scores| => FormatScore(scores[i]))
  }

  /** An entry the line format can carry: a name without the separator or a
      line break, and a score Java's `int` can hold. */
  predicate Writable(s: Score) {
    ':' !in s.name && '\n' !in s.name && InIntRange(s.score)
  }

  /** A line of `parseStringScores`: kept when it splits on `:` into exactly
      two parts whose second parses as an `int`, skipped otherwise. */
  function ParseScoreLine(line: string): (r: Option<Score>)
    ensures r.Some? ==> StartsWith(line, r.value.name) && ':' !in r.value.name
    ensures ':' !in line ==> r == None
  {
    var parts := Split(line, ':');
    if |parts| != 2 then None
    else match ParseInt(parts[1])
      case None => None
      case Some(n) =>
        SplitPrefix(line, ':');
        Some(Score(parts[0], n))
  }

  /** The first part of a split is where the string starts. */
  lemma SplitPrefix(s: string, d: char)
    requires |Split(s, d)| >= 1
    ensures StartsWith(s, Split(s, d)[0])
  {
    if d in s {
      var f := Fields(s, d);
      JoinStartsWithFirst(f, d);
    }
  }

  lemma JoinStartsWithFirst(parts: seq<string>, d: char)
    requires |parts| >= 1
    ensures StartsWith(Join(parts, d), parts[0])
  {
    if |parts| > 1 {
      assert Join(parts, d) == parts[0] + ([d] + Join(parts[1..], d));
    }
  }

  /** A line written for an entry is read back as that entry. */
  lemma ParseFormattedLine(s: Score)
    requires Writable(s)
    ensures ParseScoreLine(FormatScore(s)) == Some(s)
  {
    var digits := IntToString(s.score);
    IntToStringHasNoSeparator(s.score, ':');
    var parts := [s.name, digits];
    assert Join(parts, ':') == FormatScore(s) by {
      assert Join(parts[1..], ':') == digits;
    }
    SplitOfJoin(parts, ':');
    ParseIntToString(s.score);
  }

  /** The entries of the lines that parse, in the order of the lines. */
  function ParsedScores(lines: seq<string>): (r: seq<Score>)
    ensures |r| <= |lines|
  {
    ParsedLines(lines, ParseScoreLine)
  }

  /** The lines written for a list parse back to that list. */
  lemma ParsedFormattedLines(scores: seq<Score>)
    requires forall i :: 0 <= i < |scores| ==> Writable(scores[i])
    ensures ParsedScores(FormattedLines(scores)) == scores
  {
    var lines := FormattedLines(scores);
    forall i | 0 <= i < |lines|
      ensures ParseScoreLine(lines[i]) == Some(scores[i])
    {
      ParseFormattedLine(scores[i]);
    }
    ParsedLinesOfEach(lines, scores, ParseScoreLine);
  }

  /** `parseStringScores`: the text after `HISCORES ` is split into lines
      and each line that parses becomes an entry; a message too short to
      cut throws. */
  method ParseStringScores(msg: string) returns (r: Result<seq<Score>>)
    ensures |msg| < 9 ==> r == Err(StringIndexOutOfBounds)
    ensures |msg| >= 9 ==> r == Ok(ParsedScores(Split(msg[9..], '\n')))
  {
    if |msg| < |"HISCORES "| {
      return Err(StringIndexOutOfBounds);
    }
    var lines := Split(msg[|"HISCORES "|..], '\n');
    var scores: seq<Score> := [];
    for i := 0 to |lines|
      invariant scores == ParsedScores(lines[..i])
    {
      ParsedLinesStep(lines, i, ParseScoreLine);
      var parsed := ParseScoreLine(lines[i]);
      if parsed.Some? {
        scores := scores + [parsed.value];
      }
    }
    assert lines[..|lines|] == lines;
    r := Ok(scores);
  }

  /** The `HISCORES` message for a list, one `name:score` line per entry. */
  function HiscoresMessage(scores: seq<Score>): string
    requires |scores| >= 1
  {
    "HISCORES " + Join(FormattedLines(scores), '\n')
  }

  /** Every list of entries the format can carry is parsed back from its
      message. */
  lemma HiscoresRoundTrip(scores: seq<Score>)
    requires |scores| >= 1
    requires forall i :: 0 <= i < |scores| ==> Writable(scores[i])
    ensures ParsedScores(Split(HiscoresMessage(scores)[9..], '\n')) == scores
  {
    var lines := FormattedLines(scores);
    LinesHaveNoBreak(scores);
    assert HiscoresMessage(scores)[9..] == Join(lines, '\n');
    SplitOfJoin(lines, '\n');
    ParsedFormattedLines(scores);
  }

  /** The lines of writable entries hold no line break, and none is empty. */
  lemma LinesHaveNoBreak(scores: seq<Score>)
    requires forall i :: 0 <= i < |scores| ==> Writable(scores[i])
    ensures forall i :: 0 <= i < |scores| ==> '\n' !in FormattedLines(scores)[i] && FormattedLines(scores)[i] != ""
  {
    forall i | 0 <= i < |scores|
      ensures '\n' !in FormattedLines(scores)[i]
    {
      var s := scores[i];
      IntToStringHasNoSeparator(s.score, '\n');
      assert FormatScore(s) == s.name + (":" + IntToString(s.score));
    }
  }

  // ---------------------------------------------------------------------
  // New high scores

  /** The lowest score of a list (`Collections.min` by score). */
  function MinScore(scores: seq<Score>): (m: int)
    requires |scores| >= 1
    ensures forall i :: 0 <= i < |scores| ==> m <= scores[i].score
    ensures exists i :: 0 <= i < |scores| && scores[i].score == m
  {
    if |scores| == 1 then scores[0].score
    else
      var rest := MinScore(scores[1..]);
      assert forall i :: 1 <= i < |scores| ==> scores[i] == scores[1..][i - 1];
      if scores[0].score <= rest then scores[0].score else rest
  }

  /** `seeIfNewHighScore`: the finished score beats the lowest score of the
      list; the minimum of an empty list throws. */
  function SeeIfNewHighScore(scores: seq<Score>, finished: int): (r: Result<bool>)
    ensures r.Err? <==> scores == []
    ensures r.Err? ==> r.exception == NoSuchElement
    ensures r.Ok? ==> (r.value <==> exists i :: 0 <= i < |scores| && finished > scores[i].score)
  {
    if scores == [] then Err(NoSuchElement) else Ok(finished > MinScore(scores))
  }

  /** What the high-score prompt adds: the player's entry when the score
      beats the list and a name was entered, nothing otherwise. */
  function Claimed(scores: seq<Score>, finished: int, name: Option<string>): (r: Result<seq<Score>>)
    ensures r.Err? <==> scores == []
    ensures r.Ok? ==> r.value == scores || (name.Some? && r.value == scores + [Score(name.value, finished)])
  {
    match SeeIfNewHighScore(scores, finished)
    case Err(e) => Err(e)
    case Ok(high) => Ok(if high && name.Some? then scores + [Score(name.value, finished)] else scores)
  }

  /** The player's entry is added exactly when the score beats an entry of
      a non-empty list and a name was entered. */
  lemma ClaimedOnlyWhenHigh(scores: seq<Score>, finished: int, name: Option<string>)
    requires scores != []
    ensures Claimed(scores, finished, name).Ok?
    ensures |Claimed(scores, finished, name).value| == |scores| + 1 <==>
      name.Some? && exists i :: 0 <= i < |scores| && finished > scores[i].score
  {
  }

  // ---------------------------------------------------------------------
  // The screens

  /** The online list (`handleServerMessage`): a message other than
      `HISCORES` is ignored (`Ok(None)`); the `HISCORES` message is parsed,
      the player's entry is added and sent as `HISCORE name:score` when it
      is a new high score, and the first ten of the sorted list are shown.
      A bare `HISCORES` or an empty list ends the handler with its
      exception. */
  method ShowOnlineScores(msg: string, finished: int, name: Option<string>)
      returns (r: Result<Option<seq<Score>>>, sent: seq<string>)
    ensures !StartsWith(msg, "HISCORES") ==> r == Ok(None) && sent == []
    ensures StartsWith(msg, "HISCORES") && |msg| < 9 ==> r == Err(StringIndexOutOfBounds) && sent == []
    ensures StartsWith(msg, "HISCORES") && |msg| >= 9 ==>
      var parsed := ParsedScores(Split(msg[9..], '\n'));
      && (parsed == [] ==> r == Err(NoSuchElement) && sent == [])
      && (parsed != [] ==> var all := Claimed(parsed, finished, name).value;
            && r == Ok(Some(Top(SortDescending(all, ScoreOf), MaxScoreArraySize)))
            && sent == if |all| > |parsed| then ["HISCORE " + FormatScore(Score(name.value, finished))] else [])
  {
    sent := [];
    if !StartsWith(msg, "HISCORES") {
      return Ok(None), [];
    }
    var parsed := ParseStringScores(msg);
    if parsed.Err? {
      return Err(parsed.exception), [];
    }
    var scores := parsed.value;
    var high := SeeIfNewHighScore(scores, finished);
    if high.Err? {
      return Err(high.exception), [];
    }
    if high.value && name.Some? {
      var entry := Score(name.value, finished);
      scores := scores + [entry];
      sent := ["HISCORE " + FormatScore(entry)];
    }
    scores := SortDescending(scores, ScoreOf);
    r := Ok(Some(Top(scores, MaxScoreArraySize)));
  }

  /** The online list shown is at most ten entries, in descending order,
      and they are the best of the sorted list. */
  lemma OnlineScoresRanked(all: seq<Score>)
    ensures |Top(SortDescending(all, ScoreOf), MaxScoreArraySize)| <= MaxScoreArraySize
    ensures Descending(Top(SortDescending(all, ScoreOf), MaxScoreArraySize), ScoreOf)
    ensures multiset(Top(SortDescending(all, ScoreOf), MaxScoreArraySize)) <= multiset(all)
  {
    var sorted := SortDescending(all, ScoreOf);
    SortIsDescending(all, ScoreOf);
    SortPermutes(all, ScoreOf);
    TopIsBest(sorted, ScoreOf, MaxScoreArraySize);
    var top := Top(sorted, MaxScoreArraySize);
    assert sorted == top + sorted[|top|..];
    assert multiset(sorted) == multiset(top) + multiset(sorted[|top|..]);
  }

  // ---------------------------------------------------------------------
  // The local score file

  /** The text `writeLocalScores` leaves in the file for a list. */
  function FileText(scores: seq<Score>): string {
    WriteLines(FormattedLines(scores))
  }

  /** `writeLocalScores`: the list is sorted in place, then each entry is
      written as a `name:score` line. The sorted list is handed back, as the
      caller's list is the one that was sorted. */
  method WriteLocalScores(scores: seq<Score>) returns (sorted: seq<Score>, text: string)
    ensures sorted == SortDescending(scores, ScoreOf)
    ensures text == FileText(sorted)
  {
    sorted := SortDescending(scores, ScoreOf);
    text := "";
    for i := 0 to |sorted|
      invariant text == WriteLines(FormattedLines(sorted[..i]))
    {
      FileTextStep(sorted, i);
      text := text + FormatScore(sorted[i]) + "\n";
    }
    assert sorted[..|sorted|] == sorted;
  }

  lemma FileTextStep(scores: seq<Score>, i: int)
    requires 0 <= i < |scores|
    ensures WriteLines(FormattedLines(scores[..i + 1])) ==
      WriteLines(FormattedLines(scores[..i])) + FormatScore(scores[i]) + "\n"
  {
    assert scores[..i + 1] == scores[..i] + [scores[i]];
    FormattedLinesSnoc(scores[..i], scores[i]);
    WriteLinesSnoc(FormattedLines(scores[..i]), FormatScore(scores[i]));
  }

  lemma FormattedLinesSnoc(front: seq<Score>, x: Score)
    ensures FormattedLines(front + [x]) == FormattedLines(front) + [FormatScore(x)]
  {
    var lines, expected := FormattedLines(front + [x]), FormattedLines(front) + [FormatScore(x)];
    forall i | 0 <= i < |lines|
      ensures lines[i] == expected[i]
    {
      if i < |front| {
        assert (front + [x])[i] == front[i];
      }
    }
  }

  /** A line of the file loop of `loadLocalScores`: a line of two parts
      gives an entry, and its second part must parse, since the exception
      of `parseInt` is not caught there; other lines are skipped. */
  function ReadScoreLine(line: string): (r: Result<Option<Score>>)
    ensures r.Err? ==> r.exception == NumberFormat
    ensures r.Err? <==> |Split(line, ':')| == 2 && ParseInt(Split(line, ':')[1]).None?
    ensures r.Ok? ==> r.value == ParseScoreLine(line)
  {
    var parts := Split(line, ':');
    if |parts| != 2 then Ok(None)
    else match ParseInt(parts[1])
      case None => Err(NumberFormat)
      case Some(n) => Ok(Some(Score(parts[0], n)))
  }

  /** The entries the file loop collects, or the exception of the first
      line whose score does not parse. */
  function ReadScores(lines: seq<string>): (r: Result<seq<Score>>)
    ensures r.Err? ==> r == Err(NumberFormat)
    ensures r.Ok? ==> |r.value| <= |lines|
  {
    if lines == [] then Ok([])
    else match ReadScores(lines[..|lines| - 1])
      case Err(e) => Err(e)
      case Ok(front) =>
        match ReadScoreLine(lines[|lines| - 1])
        case Err(e) => Err(e)
        case Ok(last) => Ok(front + if last.Some? then [last.value] else [])
  }

  /** The strict file loop and the lenient server parser agree wherever the
      file loop does not throw. */
  lemma {:induction false} ReadScoresAgree(lines: seq<string>)
    requires ReadScores(lines).Ok?
    ensures ReadScores(lines).value == ParsedScores(lines)
    decreases |lines|
  {
    if lines != [] {
      var n := |lines|;
      ReadScoresStep(lines, n - 1);
      ParsedLinesStep(lines, n - 1, ParseScoreLine);
      assert lines[..n] == lines;
      ReadScoresAgree(lines[..n - 1]);
    }
  }

  /** The file loop throws exactly when some line of two parts has a second
      part that does not parse. */
  lemma ReadScoresFails(lines: seq<string>)
    ensures ReadScores(lines).Err? <==> exists i :: 0 <= i < |lines| && ReadScoreLine(lines[i]).Err?
  {
    if ReadScores(lines).Err? {
      var i := FailingLine(lines);
    } else {
      forall i | 0 <= i < |lines|
        ensures ReadScoreLine(lines[i]).Ok?
      {
        ReadLineOk(lines, i);
      }
    }
  }

  /** A line that makes the file loop throw. */
  lemma {:induction false} FailingLine(lines: seq<string>) returns (i: int)
    requires ReadScores(lines).Err?
    ensures 0 <= i < |lines| && ReadScoreLine(lines[i]).Err?
    decreases |lines|
  {
    var n := |lines|;
    var front := lines[..n - 1];
    if ReadScores(front).Err? {
      i := FailingLine(front);
      assert front[i] == lines[i];
    } else {
      i := n - 1;
    }
  }

  /** Every line of lines the file loop gets through is read without an
      exception. */
  lemma ReadLineOk(lines: seq<string>, i: int)
    requires ReadScores(lines).Ok? && 0 <= i < |lines|
    ensures ReadScoreLine(lines[i]).Ok?
  {
    ReadPrefixOk(lines, i + 1);
    ReadScoresOkParts(lines[..i + 1]);
    assert lines[..i + 1][i] == lines[i];
  }

  /** Every prefix of lines the file loop gets through is got through. */
  lemma {:induction false} ReadPrefixOk(lines: seq<string>, k: int)
    requires ReadScores(lines).Ok? && 0 <= k <= |lines|
    ensures ReadScores(lines[..k]).Ok?
    decreases |lines| - k
  {
    if k == |lines| {
      assert lines[..k] == lines;
    } else {
      ReadPrefixOk(lines, k + 1);
      ReadScoresOkParts(lines[..k + 1]);
      assert lines[..k + 1][..k] == lines[..k];
    }
  }

  /** A list of lines the file loop gets through has a front it gets
      through and a last line read without an exception. */
  lemma ReadScoresOkParts(lines: seq<string>)
    requires ReadScores(lines).Ok? && lines != []
    ensures ReadScores(lines[..|lines| - 1]).Ok? && ReadScoreLine(lines[|lines| - 1]).Ok?
  {
  }

  /** The file loop (`while ((line = reader.readLine()) != null)`): the
      entries read are added after those already in the list. */
  method ReadScoreFile(scores: seq<Score>, text: string) returns (r: Result<seq<Score>>)
    ensures ReadScores(ReadLines(text)).Err? ==> r == Err(ReadScores(ReadLines(text)).exception)
    ensures ReadScores(ReadLines(text)).Ok? ==> r == Ok(scores + ReadScores(ReadLines(text)).value)
  {
    var lines := ReadLines(text);
    var read: seq<Score> := [];
    for i := 0 to |lines|
      invariant ReadScores(lines[..i]) == Ok(read)
    {
      var next := ReadFileLine(lines, i, read);
      if next.Err? {
        ReadErrorPersists(lines, i + 1);
        return Err(next.exception);
      }
      read := next.value;
    }
    assert lines[..|lines|] == lines;
    r := Ok(scores + read);
  }

  /** One pass of the file loop: line `i` is split and its entry added. */
  method ReadFileLine(lines: seq<string>, i: int, read: seq<Score>) returns (r: Result<seq<Score>>)
    requires 0 <= i < |lines| && ReadScores(lines[..i]) == Ok(read)
    ensures r == ReadScores(lines[..i + 1])
  {
    ReadScoresStep(lines, i);
    var parsed := ReadScoreLine(lines[i]);
    if parsed.Err? {
      return Err(parsed.exception);
    }
    r := Ok(read + if parsed.value.Some? then [parsed.value.value] else []);
  }

  /** The step of the file loop. */
  lemma ReadScoresStep(lines: seq<string>, i: int)
    requires 0 <= i < |lines| && ReadScores(lines[..i]).Ok?
    ensures ReadScoreLine(lines[i]).Err? ==> ReadScores(lines[..i + 1]) == Err(ReadScoreLine(lines[i]).exception)
    ensures ReadScoreLine(lines[i]).Ok? ==>
      var last := ReadScoreLine(lines[i]).value;
      ReadScores(lines[..i + 1]) == Ok(ReadScores(lines[..i]).value + if last.Some? then [last.value] else [])
  {
    assert lines[..i + 1][..i] == lines[..i];
  }

  /** Once a prefix of the lines throws, every longer prefix throws the same. */
  lemma {:induction false} ReadErrorPersists(lines: seq<string>, i: int)
    requires 0 <= i <= |lines| && ReadScores(lines[..i]).Err?
    ensures ReadScores(lines) == ReadScores(lines[..i])
    decreases |lines| - i
  {
    if i < |lines| {
      assert lines[..i + 1][..i] == lines[..i];
      ReadErrorPersists(lines, i + 1);
    } else {
      assert lines[..i] == lines;
    }
  }

  /** What `writeLocalScores` wrote is read back by the file loop as the
      same list, in the same order. */
  lemma LocalFileRoundTrip(scores: seq<Score>)
    requires forall i :: 0 <= i < |scores| ==> Writable(scores[i])
    ensures ReadScores(ReadLines(FileText(scores))) == Ok(scores)
  {
    var lines := FormattedLines(scores);
    LinesHaveNoBreak(scores);
    ReadWrittenLines(lines);
    forall i | 0 <= i < |lines|
      ensures ReadScoreLine(lines[i]).Ok?
    {
      ParseFormattedLine(scores[i]);
    }
    ReadScoresFails(lines);
    ReadScoresAgree(lines);
    ParsedFormattedLines(scores);
  }

  // ---------------------------------------------------------------------
  // loadLocalScores

  /** What the local list screen shows and what the file holds afterwards. */
  datatype Loaded = Loaded(shown: seq<Score>, file: string)

  /** The two entries written when there is no score file, in the order they
      are added. */
  const Dummies: seq<Score> := [Score("Jeff", 1), Score("Bob", 2)]

  /** The end of `loadLocalScores` once the file is read: the player's entry
      is added if it is a new high score, the list is sorted, its first ten
      are shown, and the whole sorted list is written back. */
  function Finish(read: Result<seq<Score>>, finished: int, name: Option<string>): (r: Result<Loaded>)
    ensures read.Err? ==> r == Err(read.exception)
    ensures read == Ok([]) ==> r == Err(NoSuchElement)
    ensures read.Ok? && read.value != [] ==> r.Ok?
  {
    match read
    case Err(e) => Err(e)
    case Ok(scores) =>
      match Claimed(scores, finished, name)
      case Err(e) => Err(e)
      case Ok(all) =>
        var sorted := SortDescending(all, ScoreOf);
        Ok(Loaded(Top(sorted, MaxScoreArraySize), FileText(sorted)))
  }

  /** The screen shows at most ten entries in descending order, each at
      least as good as every entry left off, and the file written holds
      every entry, which a later load reads back in the same order. */
  lemma FinishRanked(scores: seq<Score>, finished: int, name: Option<string>)
    requires scores != []
    requires forall i :: 0 <= i < |scores| ==> Writable(scores[i])
    requires name.Some? ==> Writable(Score(name.value, finished))
    ensures var all := Claimed(scores, finished, name).value;
            var sorted := SortDescending(all, ScoreOf);
            var r := Finish(Ok(scores), finished, name).value;
            && |r.shown| <= MaxScoreArraySize
            && Descending(r.shown, ScoreOf)
            && (forall i, j :: 0 <= i < |r.shown| <= j < |sorted| ==> r.shown[i].score >= sorted[j].score)
            && ReadScores(ReadLines(r.file)) == Ok(sorted)
  {
    var all := Claimed(scores, finished, name).value;
    var sorted := SortDescending(all, ScoreOf);
    SortIsDescending(all, ScoreOf);
    TopIsBest(sorted, ScoreOf, MaxScoreArraySize);
    ClaimedWritable(scores, finished, name);
    SortedWritable(all);
    LocalFileRoundTrip(sorted);
  }

  /** Every entry of the claimed list can be written to the file. */
  lemma ClaimedWritable(scores: seq<Score>, finished: int, name: Option<string>)
    requires scores != []
    requires forall i :: 0 <= i < |scores| ==> Writable(scores[i])
    requires name.Some? ==> Writable(Score(name.value, finished))
    ensures forall k :: 0 <= k < |Claimed(scores, finished, name).value| ==> Writable(Claimed(scores, finished, name).value[k])
  {
    var all := Claimed(scores, finished, name).value;
    forall k | 0 <= k < |all|
      ensures Writable(all[k])
    {
      if k < |scores| {
        assert all[k] == scores[k];
      }
    }
  }

  /** Sorting keeps every entry writable. */
  lemma SortedWritable(all: seq<Score>)
    requires forall k :: 0 <= k < |all| ==> Writable(all[k])
    ensures forall i :: 0 <= i < |SortDescending(all, ScoreOf)| ==> Writable(SortDescending(all, ScoreOf)[i])
  {
    var sorted := SortDescending(all, ScoreOf);
    SortPermutes(all, ScoreOf);
    forall i | 0 <= i < |sorted|
      ensures Writable(sorted[i])
    {
      assert sorted[i] in multiset(all);
      assert sorted[i] in all;
    }
  }

  /** The sorted list of a list that is already sorted is the same list, so
      writing it again writes the same text. */
  lemma WriteSortedAgain(all: seq<Score>)
    ensures SortDescending(SortDescending(all, ScoreOf), ScoreOf) == SortDescending(all, ScoreOf)
  {
    SortIsDescending(all, ScoreOf);
    SortOfDescending(SortDescending(all, ScoreOf), ScoreOf);
  }

  /** The sorted dummy entries. */
  lemma SortedDummies()
    ensures SortDescending(Dummies, ScoreOf) == [Score("Bob", 2), Score("Jeff", 1)]
  {
    var j, b := Score("Jeff", 1), Score("Bob", 2);
    assert Dummies == [j, b] && [j, b][1..] == [b];
    assert SortDescending([b], ScoreOf) == Insert(b, [], ScoreOf) == [b];
    assert Insert(j, [b], ScoreOf) == [b] + Insert(j, [], ScoreOf);
  }

  /** The file written for the dummy entries reads back as those entries. */
  lemma DummyFileReadBack(sorted: seq<Score>, text: string)
    requires sorted == SortDescending(Dummies, ScoreOf) && text == FileText(sorted)
    ensures ReadScores(ReadLines(text)) == Ok(sorted)
  {
    SortedDummies();
    assert Writable(sorted[0]) && Writable(sorted[1]);
    LocalFileRoundTrip(sorted);
  }

  /** The steps of `loadLocalScores` after the file is read, in the order
      of the source. */
  method Conclude(scores: seq<Score>, finished: int, name: Option<string>) returns (r: Result<Loaded>)
    ensures r == Finish(Ok(scores), finished, name)
  {
    var high := SeeIfNewHighScore(scores, finished);
    if high.Err? {
      return Err(high.exception);
    }
    var all := scores;
    if high.value && name.Some? {
      all := all + [Score(name.value, finished)];
    }
    var sorted := SortDescending(all, ScoreOf);
    var shown := Top(sorted, MaxScoreArraySize);
    WriteSortedAgain(all);
    var _, file := WriteLocalScores(sorted);
    r := Ok(Loaded(shown, file));
  }

  /** The entries read added after `scores`, or the exception of the read. */
  function Prepended(scores: seq<Score>, read: Result<seq<Score>>): (r: Result<seq<Score>>)
    ensures scores == [] ==> r == read
  {
    match read
    case Err(e) => Err(e)
    case Ok(v) =>
      assert scores == [] ==> scores + v == v;
      Ok(scores + v)
  }

  /** The file is read into the list `scores` and the load concluded; an
      exception from the file loop ends it. */
  method LoadFrom(scores: seq<Score>, text: string, finished: int, name: Option<string>) returns (r: Result<Loaded>)
    ensures r == Finish(Prepended(scores, ReadScores(ReadLines(text))), finished, name)
  {
    var read := ReadScoreFile(scores, text);
    if read.Err? {
      return Err(read.exception);
    }
    r := Conclude(read.value, finished, name);
  }

  /** `loadLocalScores` as the source has it. `stored` is the file's text,
      `None` when there is no file, and `name` what the name dialog returns.
      With no file the two dummy entries are put in the list and written
      out, and the file just written is then read into the same list, so
      every entry is there twice. */
  method LoadLocalScoresAsWritten(stored: Option<string>, finished: int, name: Option<string>)
      returns (r: Result<Loaded>)
    ensures stored.Some? ==> r == Finish(ReadScores(ReadLines(stored.value)), finished, name)
    ensures stored.None? ==>
      r == Finish(Ok(SortDescending(Dummies, ScoreOf) + SortDescending(Dummies, ScoreOf)), finished, name)
  {
    if stored.None? {
      var scores: seq<Score> := Dummies;
      var text;
      scores, text := WriteLocalScores(scores);
      DummyFileReadBack(scores, text);
      r := LoadFrom(scores, text, finished, name);
      assert Prepended(scores, ReadScores(ReadLines(text))) == Ok(scores + scores);
    } else {
      r := LoadFrom([], stored.value, finished, name);
    }
  }

  /** `loadLocalScores` as evidently intended: with no file the dummy
      entries are written and then read, once, like any other file. */
  method LoadLocalScores(stored: Option<string>, finished: int, name: Option<string>)
      returns (r: Result<Loaded>)
    ensures stored.Some? ==> r == Finish(ReadScores(ReadLines(stored.value)), finished, name)
    ensures stored.None? ==> r == Finish(Ok(SortDescending(Dummies, ScoreOf)), finished, name)
  {
    if stored.None? {
      var sorted, text := WriteLocalScores(Dummies);
      DummyFileReadBack(sorted, text);
      r := LoadFrom([], text, finished, name);
    } else {
      r := LoadFrom([], stored.value, finished, name);
    }
  }

  /** With no score file and no new high score, the source shows each dummy
      entry twice. */
  lemma DummiesShownTwice(finished: int)
    requires finished <= 1
    ensures Finish(Ok(SortDescending(Dummies, ScoreOf) + SortDescending(Dummies, ScoreOf)), finished, None).Ok?
    ensures Finish(Ok(SortDescending(Dummies, ScoreOf) + SortDescending(Dummies, ScoreOf)), finished, None).value.shown
      == [Score("Bob", 2), Score("Bob", 2), Score("Jeff", 1), Score("Jeff", 1)]
  {
    SortedDummies();
    var twice := SortDescending(Dummies, ScoreOf) + SortDescending(Dummies, ScoreOf);
    TwiceSorted(twice);
    assert SeeIfNewHighScore(twice, finished) == Ok(false);
  }

  lemma TwiceSorted(twice: seq<Score>)
    requires twice == [Score("Bob", 2), Score("Jeff", 1), Score("Bob", 2), Score("Jeff", 1)]
    ensures SortDescending(twice, ScoreOf) == [Score("Bob", 2), Score("Bob", 2), Score("Jeff", 1), Score("Jeff", 1)]
  {
    var j, b := Score("Jeff", 1), Score("Bob", 2);
    assert twice[1..] == [j, b, j] && [j, b, j][1..] == [b, j] && [b, j][1..] == [j];
    assert SortDescending([j], ScoreOf) == Insert(j, [], ScoreOf) == [j];
    assert SortDescending([b, j], ScoreOf) == Insert(b, [j], ScoreOf) == [b, j];
    assert Insert(j, [j], ScoreOf) == [j, j];
    assert SortDescending([j, b, j], ScoreOf) == Insert(j, [b, j], ScoreOf) == [b] + Insert(j, [j], ScoreOf);
    assert SortDescending(twice, ScoreOf) == Insert(b, [b, j, j], ScoreOf) == [b, b, j, j];
  }

  /** The corrected load shows each dummy entry once. */
  lemma DummiesShownOnce(finished: int)
    requires finished <= 1
    ensures Finish(Ok(SortDescending(Dummies, ScoreOf)), finished, None).Ok?
    ensures Finish(Ok(SortDescending(Dummies, ScoreOf)), finished, None).value.shown
      == [Score("Bob", 2), Score("Jeff", 1)]
  {
    SortedDummies();
    var once := SortDescending(Dummies, ScoreOf);
    assert SeeIfNewHighScore(once, finished) == Ok(false);
    assert Descending(once, ScoreOf);
    SortOfDescending(once, ScoreOf);
  }

  // ---------------------------------------------------------------------
  // The multiplayer list

  /** `loadMultiplayerGameScores` as the source has it: the truncated
      sublist is computed and dropped, and every entry of `allScores` is
      shown. */
  method LoadMultiplayerGameScoresAsWritten(allScores: seq<Score>) returns (shown: seq<Score>)
    ensures shown == allScores
    ensures |allScores| > MaxScoreArraySize ==> |shown| > MaxScoreArraySize
  {
    var _ := Top(allScores, MaxScoreArraySize);
    shown := allScores;
  }

  /** `loadMultiplayerGameScores` as evidently intended: the first ten
      entries, like every other score list. */
  method LoadMultiplayerGameScores(allScores: seq<Score>) returns (shown: seq<Score>)
    ensures |shown| <= MaxScoreArraySize && |shown| <= |allScores|
    ensures shown == allScores[..|shown|]
    ensures |allScores| <= MaxScoreArraySize ==> shown == allScores
  {
    shown := Top(allScores, MaxScoreArraySize);
  }
}
