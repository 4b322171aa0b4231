/** The text protocol of the lobby chat
    (java/uk/ac/soton/comp1206/component/ChatWindow.java): what a line typed
    by the player sends to the server, and what a `MSG` message from the
    server puts on screen. */
module ChatCommands {
  import opened Outcomes
  import opened JavaText

  // ---------------------------------------------------------------------
  // Sending

  /** The three spellings of the long nickname command, each ten characters
      with its trailing space. */
  predicate LongNick(msg: string) {
    StartsWith(msg, "/nickname ") || StartsWith(msg, "/NICKNAME ") || StartsWith(msg, "/Nickname ")
  }

  /** Input that `sendMessage` treats as a nickname change. */
  predicate NickCommand(msg: string) {
    LongNick(msg) || StartsWith(msg, "/nick")
  }

  /** `sendMessage`: the long nickname command sends `NICK` and what follows
      its ten characters; any other input starting `/nick` sends `NICK` and
      what follows its sixth character, and a bare `/nick` is too short to
      cut; everything else is sent as a chat message with the white space
      at both ends removed. Exactly one message is sent, or none when the
      cut throws. */
  function SendMessage(msg: string): (r: Result<string>)
    ensures r.Err? <==> msg == "/nick"
    ensures r.Err? ==> r.exception == StringIndexOutOfBounds
    ensures r.Ok? ==> (StartsWith(r.value, "NICK ") <==> NickCommand(msg))
    ensures r.Ok? && !NickCommand(msg) ==> r.value == "MSG " + Strip(msg)
    ensures r.Ok? && NickCommand(msg) ==> |r.value| == |msg| - (if LongNick(msg) then 5 else 1)
  {
    if LongNick(msg) then Ok("NICK " + msg[|"/nickname "|..])
    else if StartsWith(msg, "/nick") then
      if |msg| < |"/nick "| then Err(StringIndexOutOfBounds) else Ok("NICK " + msg[|"/nick "|..])
    else
      var line := "MSG " + Strip(msg);
      assert line[0] != "NICK "[0];
      Ok(line)
  }

  /** The long command, in any of its spellings, sends the name after it. */
  lemma LongNickSendsName(name: string)
    ensures SendMessage("/nickname " + name) == Ok("NICK " + name)
    ensures SendMessage("/NICKNAME " + name) == Ok("NICK " + name)
    ensures SendMessage("/Nickname " + name) == Ok("NICK " + name)
  {
    assert ("/nickname " + name)[..10] == "/nickname ";
    assert ("/nickname " + name)[10..] == name;
    assert ("/NICKNAME " + name)[..10] == "/NICKNAME ";
    assert ("/NICKNAME " + name)[10..] == name;
    assert ("/Nickname " + name)[..10] == "/Nickname ";
    assert ("/Nickname " + name)[10..] == name;
  }

  /** The short command sends the name after it, whatever the name. */
  lemma ShortNickSendsName(name: string)
    ensures SendMessage("/nick " + name) == Ok("NICK " + name)
  {
    var msg := "/nick " + name;
    assert msg[..5] == "/nick";
    assert msg[6..] == name;
    assert msg[5] == ' ';
    assert !LongNick(msg) by {
      assert msg[5] != "/nickname "[5];
      assert msg[1] != "/NICKNAME "[1] && msg[1] != "/Nickname "[1];
    }
  }

  /** Any other input starting `/nick` loses its sixth character, whatever
      it is: the cut does not look for the space. */
  lemma ShortNickDropsSixth(c: char, name: string)
    requires !LongNick("/nick" + [c] + name)
    ensures SendMessage("/nick" + [c] + name) == Ok("NICK " + name)
  {
    var msg := "/nick" + [c] + name;
    assert msg[..5] == "/nick";
    assert msg[6..] == name;
  }

  /** A letter where the space belongs is dropped. */
  lemma ShortNickWithoutSpace()
    ensures SendMessage("/nickxbob") == Ok("NICK bob")
  {
    var msg := "/nickxbob";
    var cut := "/nick" + ['x'] + "bob";
    assert |cut| == |msg| == 9;
    assert forall i :: 0 <= i < 9 ==> cut[i] == msg[i];
    assert cut == msg;
    assert !LongNick(msg) by {
      assert msg[5] != "/nickname "[5];
      assert msg[1] != "/NICKNAME "[1] && msg[1] != "/Nickname "[1];
    }
    ShortNickDropsSixth('x', "bob");
    assert "NICK " + "bob" == "NICK bob";
  }

  /** The long command without its space is the short one: it keeps the
      end of the word. */
  lemma LongNickWithoutSpace()
    ensures SendMessage("/nicknamebob") == Ok("NICK amebob")
  {
    var msg := "/nicknamebob";
    var cut := "/nick" + ['n'] + "amebob";
    assert |cut| == |msg| == 12;
    assert forall i :: 0 <= i < 12 ==> cut[i] == msg[i];
    assert cut == msg;
    assert !LongNick(msg) by {
      assert msg[9] != "/nickname "[9];
      assert msg[1] != "/NICKNAME "[1] && msg[1] != "/Nickname "[1];
    }
    ShortNickDropsSixth('n', "amebob");
    assert "NICK " + "amebob" == "NICK amebob";
  }

  /** A chat line sent again after it was sent is sent the same: stripping
      is done once. */
  lemma ChatLineStable(msg: string)
    requires !NickCommand(msg) && !NickCommand(Strip(msg))
    ensures SendMessage(Strip(msg)) == SendMessage(msg)
  {
    StripIdempotent(msg);
  }

  // ---------------------------------------------------------------------
  // Receiving

  /** The `MSG` branch of `handleServerMessage`: the text after `MSG ` is
      split on `:`, and with at least two parts the first two are shown as
      `name: text` on a line of their own; with fewer the message is logged
      and dropped. `Ok(None)` for a message that shows nothing; a bare `MSG`
      is too short to cut. */
  function ReceiveMessage(msg: string): (r: Result<Option<string>>)
    ensures r.Err? <==> !StartsWith(msg, "HOST") && StartsWith(msg, "MSG") && |msg| < 4
    ensures r.Err? ==> r.exception == StringIndexOutOfBounds
    ensures r.Ok? && r.value.Some? ==> |msg| >= 4 && |Split(msg[4..], ':')| >= 2
  {
    if StartsWith(msg, "HOST") || !StartsWith(msg, "MSG") then Ok(None)
    else if |msg| < |"MSG "| then Err(StringIndexOutOfBounds)
    else
      var parts := Split(msg[|"MSG "|..], ':');
      if |parts| <= 1 then Ok(None)
      else Ok(Some(parts[0] + ": " + parts[1] + "\n"))
  }

  /** A chat message of a name and any number of text parts is shown as the
      name and the first text part; the parts after the second are dropped. */
  lemma ReceiveShowsFirstTwoParts(parts: seq<string>)
    requires |parts| >= 2
    requires forall i :: 0 <= i < |parts| ==> ':' !in parts[i]
    requires parts[|parts| - 1] != ""
    ensures ReceiveMessage("MSG " + Join(parts, ':')) == Ok(Some(parts[0] + ": " + parts[1] + "\n"))
  {
    var msg := "MSG " + Join(parts, ':');
    assert msg[..3] == "MSG";
    assert msg[..4] != "HOST";
    assert msg[4..] == Join(parts, ':');
    SplitOfJoin(parts, ':');
  }

  /** A message without a `:` after its name shows nothing. */
  lemma ReceiveWithoutSeparator(text: string)
    requires ':' !in text
    ensures ReceiveMessage("MSG " + text) == Ok(None)
  {
    var msg := "MSG " + text;
    assert msg[..3] == "MSG";
    assert msg[4..] == text;
  }
}
