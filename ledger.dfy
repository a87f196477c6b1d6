/**
 The premium ledger: a text file with one user id per line, read once at
 start-up into the set of premium users. A line counts when its stripped text
 is an integer; any other line is skipped and the load goes on.
 */
module Ledger {
  import opened Wrappers
  import opened Text

  /** What one line of the ledger contributes: `int(line.strip())`, or nothing on `ValueError`. */
  function ParseLine(line: string): Option<int> {
    ParseInt(Strip(line))
  }

  /** The ids one line adds to the set: its parsed value, or none. */
  function Contribution(line: string): set<int> {
    match ParseLine(line)
    case Some(n) => {n}
    case None => {}
  }

  /** The ids named by a sequence of ledger lines, as the load loop collects them. */
  function LedgerIds(lines: seq<string>): set<int> {
    if lines == [] then {} else
    LedgerIds(lines[..|lines| - 1]) + Contribution(lines[|lines| - 1])
  }

  /** A user is listed when some line of the ledger parses to their id. */
  predicate Listed(lines: seq<string>, uid: int) {
    exists i :: 0 <= i < |lines| && ParseLine(lines[i]) == Some(uid)
  }

  /** The ids the ledger file yields; a missing file yields none. */
  function LedgerSet(file: Option<string>): set<int> {
    match file
    case None => {}
    case Some(content) => LedgerIds(Lines(content))
  }

  /** Every id in the loaded set comes from a line, and every parsable line is loaded. */
  lemma {:induction false} LedgerMember(lines: seq<string>, uid: int)
    ensures uid in LedgerIds(lines) <==> Listed(lines, uid)
  {
    if lines != [] {
      var init, last := lines[..|lines| - 1], lines[|lines| - 1];
      LedgerMember(init, uid);
      assert uid in Contribution(last) <==> ParseLine(last) == Some(uid);
      if Listed(init, uid) {
        var i :| 0 <= i < |init| && ParseLine(init[i]) == Some(uid);
        assert lines[i] == init[i];
      }
      if ParseLine(last) == Some(uid) {
        assert lines[|lines| - 1] == last;
      }
      if Listed(lines, uid) {
        var i :| 0 <= i < |lines| && ParseLine(lines[i]) == Some(uid);
        if i < |init| { assert init[i] == lines[i]; }
      }
    }
  }

  /** Loading two stretches of lines one after the other loads the ids of both. */
  lemma {:induction false} LedgerAppend(a: seq<string>, b: seq<string>)
    ensures LedgerIds(a + b) == LedgerIds(a) + LedgerIds(b)
    decreases |b|
  {
    if b == [] {
      assert a + b == a;
    } else {
      var b' := b[..|b| - 1];
      assert (a + b)[..|a + b| - 1] == a + b';
      assert (a + b)[|a + b| - 1] == b[|b| - 1];
      LedgerAppend(a, b');
    }
  }

  /** A malformed line is skipped without stopping the lines after it from loading. */
  lemma SkipMalformed(a: seq<string>, bad: string, b: seq<string>)
    requires ParseLine(bad) == None
    ensures LedgerIds(a + [bad] + b) == LedgerIds(a) + LedgerIds(b)
  {
    LedgerAppend(a + [bad], b);
    assert (a + [bad])[..|a + [bad]| - 1] == a;
  }

  /** A line holding `str(uid)` between any whitespace loads `uid`, within the digit limit. */
  lemma PaddedIdLoads(pre: string, uid: int, post: string)
    requires AllSpace(pre) && AllSpace(post) && DigitCount(uid) <= MAX_STR_DIGITS
    ensures ParseLine(pre + FormatInt(uid) + post) == Some(uid)
  {
    StripPadded(pre, FormatInt(uid), post);
    ParseFormat(uid);
  }

  /**
   The start-up loop: for every line of the file, if it is present, add
   `int(line.strip())` to the set, skipping lines that do not parse.
   */
  method LoadPremium(file: Option<string>) returns (ids: set<int>)
    ensures ids == LedgerSet(file)
    ensures forall uid :: uid in ids <==> file.Some? && Listed(Lines(file.value), uid)
  {
    ids := {};
    if file.Some? {
      var lines := Lines(file.value);
      var i := 0;
      while i < |lines|
        invariant 0 <= i <= |lines|
        invariant ids == LedgerIds(lines[..i])
      {
        assert lines[..i + 1][..i] == lines[..i];
        match ParseLine(lines[i]) {
          case Some(n) => ids := ids + {n};
          case None =>
        }
        assert ids == LedgerIds(lines[..i]) + Contribution(lines[i]);
        i := i + 1;
      }
      assert lines[..i] == lines;
    }
    forall uid ensures uid in ids <==> file.Some? && Listed(Lines(file.value), uid) {
      if file.Some? { LedgerMember(Lines(file.value), uid); }
    }
  }
}
