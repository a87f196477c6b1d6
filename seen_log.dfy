/**
 The log of users who have been shown the upgrade prompt: a text file with
 one id per line. On each "get premium" press the file is created empty if
 missing, its stripped lines are read, and `str(uid)` plus a newline is
 appended only when no line already equals it.
 */
module SeenLog {
  import opened Wrappers
  import opened Text

  /** `[line.strip() for line in lines]`. */
  function StripAll(lines: seq<string>): (r: seq<string>)
    ensures |r| == |lines|
  {
    seq(|lines|, i requires 0 <= i < |lines| => Strip(lines[i]))
  }

  /** The stripped lines of a log text. */
  function SeenIds(content: string): seq<string> {
    StripAll(Lines(content))
  }

  /** The log text once the file exists: a missing file is created empty. */
  function Existing(log: Option<string>): string {
    match log
    case None => ""
    case Some(content) => content
  }

  /** The log text after `uid` presses "get premium". */
  function Recorded(log: Option<string>, uid: int): string {
    var content := Existing(log);
    if FormatInt(uid) in SeenIds(content) then content else content + FormatInt(uid) + "\n"
  }

  /** The list comprehension that reads the log: strips every line, in order. */
  method ReadSeenIds(content: string) returns (seen: seq<string>)
    ensures seen == SeenIds(content)
  {
    var lines := Lines(content);
    seen := [];
    for i := 0 to |lines|
      invariant |seen| == i
      invariant forall k :: 0 <= k < i ==> seen[k] == Strip(lines[k])
    {
      seen := seen + [Strip(lines[i])];
    }
  }

  lemma FormatIntNoNewline(uid: int)
    ensures forall j :: 0 <= j < |FormatInt(uid)| ==> FormatInt(uid)[j] != '\n'
  {
  }

  lemma StripAllAppend(a: seq<string>, b: seq<string>)
    ensures StripAll(a + b) == StripAll(a) + StripAll(b)
  {
    assert forall i :: 0 <= i < |a| ==> (a + b)[i] == a[i];
    assert forall i :: |a| <= i < |a + b| ==> (a + b)[i] == b[i - |a|];
  }

  /** Appending the id line to a terminated log adds exactly one stripped line, `str(uid)`. */
  lemma SeenAfterAppend(content: string, uid: int)
    requires Terminated(content)
    ensures SeenIds(content + FormatInt(uid) + "\n") == SeenIds(content) + [FormatInt(uid)]
  {
    var w := FormatInt(uid);
    var line := w + "\n";
    FormatIntNoNewline(uid);
    assert content + w + "\n" == content + line;
    LinesAppend(content, line);
    SingleLine(w);
    assert Lines(content + line) == Lines(content) + [line];
    StripPadded([], w, "\n");
    assert [] + w + "\n" == line;
    assert StripAll([line]) == [w];
    StripAllAppend(Lines(content), [line]);
  }

  /** The file the bot creates is empty, and every press keeps it newline-terminated. */
  lemma RecordedTerminated(log: Option<string>, uid: int)
    requires log.None? || Terminated(log.value)
    ensures Terminated(Recorded(log, uid))
  {
  }

  /** After a press on a terminated log, the user's id is among the stripped lines. */
  lemma RecordedContains(log: Option<string>, uid: int)
    requires log.None? || Terminated(log.value)
    ensures FormatInt(uid) in SeenIds(Recorded(log, uid))
  {
    var content := Existing(log);
    if FormatInt(uid) !in SeenIds(content) {
      SeenAfterAppend(content, uid);
      assert SeenIds(Recorded(log, uid))[|SeenIds(content)|] == FormatInt(uid);
    }
  }

  /** A press only ever appends: every id seen before is still seen, in the same place. */
  lemma RecordedKeepsEarlier(log: Option<string>, uid: int)
    requires log.None? || Terminated(log.value)
    ensures var before := SeenIds(Existing(log));
      var after := SeenIds(Recorded(log, uid));
      |before| <= |after| <= |before| + 1 && after[..|before|] == before
  {
    var content := Existing(log);
    if FormatInt(uid) !in SeenIds(content) {
      SeenAfterAppend(content, uid);
    }
  }

  /** Repeated presses leave the log as the first press left it. */
  lemma RecordedIdempotent(log: Option<string>, uid: int)
    requires log.None? || Terminated(log.value)
    ensures Recorded(Some(Recorded(log, uid)), uid) == Recorded(log, uid)
  {
    RecordedContains(log, uid);
  }

  /** A one-line log whose line is a word: its only stripped line is the word. */
  lemma SeenIdsOneWord(w: string, terminated: bool)
    requires NoSpaceAtEnds(w) && w != [] && forall j :: 0 <= j < |w| ==> w[j] != '\n'
    ensures SeenIds(if terminated then w + "\n" else w) == [w]
  {
    if terminated {
      SingleLine(w);
      StripPadded([], w, "\n");
      assert [] + w + "\n" == w + "\n";
    } else {
      LinesNoNewline(w);
      StripNoPadding(w);
    }
  }

  /**
   The append-once guarantee needs a terminated log: a file whose last line
   has no newline can get the id glued onto that line, and then a
   second press appends it again; the log `"42"` and the id 7 are an example.
   */
  lemma UnterminatedLogRepeats()
    ensures Recorded(Some("42"), 7) == "427\n"
    ensures Recorded(Some(Recorded(Some("42"), 7)), 7) != Recorded(Some("42"), 7)
  {
    assert FormatInt(7) == "7";
    SeenIdsOneWord("42", false);
    assert "42" + "7" + "\n" == "427" + "\n";
    SeenIdsOneWord("427", true);
  }
}
