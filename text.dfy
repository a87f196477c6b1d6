/**
 Optional values, for operations of the bot that may find nothing
 (a missing file, a line that is not a number).
 */
module Wrappers {
  datatype Option<T> = None | Some(value: T)
}

/**
 The few pieces of Python's text handling the bot relies on: `str.strip()`,
 iterating over the lines of a text file, `str(n)` and `int(s)`.
 */
module Text {
  import opened Wrappers

  /** The characters Python's `str.isspace()` accepts, which `str.strip()` removes. */
  predicate IsSpace(c: char) {
    c == ' ' || c == '\t' || c == '\n' || c == '\r' ||
    ('\U{000B}' <= c <= '\U{000C}') || ('\U{001C}' <= c <= '\U{001F}') ||
    c == '\U{0085}' || c == '\U{00A0}' || c == '\U{1680}' ||
    ('\U{2000}' <= c <= '\U{200A}') || c == '\U{2028}' || c == '\U{2029}' ||
    c == '\U{202F}' || c == '\U{205F}' || c == '\U{3000}'
  }

  /** Drops the leading whitespace of `s`. */
  function TrimStart(s: string): string {
    if |s| > 0 && IsSpace(s[0]) then TrimStart(s[1..]) else s
  }

  /** Drops the trailing whitespace of `s`. */
  function TrimEnd(s: string): string {
    if |s| > 0 && IsSpace(s[|s| - 1]) then TrimEnd(s[..|s| - 1]) else s
  }

  /** TrimStart keeps a suffix, drops only whitespace, and stops at the first other character. */
  lemma {:induction false} TrimStartSpec(s: string)
    ensures var r := TrimStart(s);
      |r| <= |s| && r == s[|s| - |r|..] &&
      (forall k :: 0 <= k < |s| - |r| ==> IsSpace(s[k])) &&
      (r == [] || !IsSpace(r[0]))
  {
    if |s| > 0 && IsSpace(s[0]) { TrimStartSpec(s[1..]); }
  }

  /** TrimEnd keeps a prefix, drops only whitespace, and stops at the last other character. */
  lemma {:induction false} TrimEndSpec(s: string)
    ensures var r := TrimEnd(s);
      |r| <= |s| && r == s[..|r|] &&
      (forall k :: |r| <= k < |s| ==> IsSpace(s[k])) &&
      (r == [] || !IsSpace(r[|r| - 1]))
  {
    if |s| > 0 && IsSpace(s[|s| - 1]) { TrimEndSpec(s[..|s| - 1]); }
  }

  /** Python's `s.strip()`: no whitespace is left at either end. */
  function Strip(s: string): (r: string)
    ensures r == [] || (!IsSpace(r[0]) && !IsSpace(r[|r| - 1]))
  {
    TrimStartSpec(s);
    TrimEndSpec(TrimStart(s));
    var t := TrimStart(s);
    var r := TrimEnd(t);
    assert r != [] ==> r[0] == t[0];
    r
  }

  predicate NoSpaceAtEnds(s: string) {
    s == [] || (!IsSpace(s[0]) && !IsSpace(s[|s| - 1]))
  }

  predicate AllSpace(s: string) {
    forall k :: 0 <= k < |s| ==> IsSpace(s[k])
  }

  lemma {:induction false} TrimStartPadded(pre: string, x: string)
    requires AllSpace(pre) && (x == [] || !IsSpace(x[0]))
    ensures TrimStart(pre + x) == x
    decreases |pre|
  {
    if pre == [] {
      assert pre + x == x;
    } else {
      assert (pre + x)[0] == pre[0];
      assert (pre + x)[1..] == pre[1..] + x;
      TrimStartPadded(pre[1..], x);
    }
  }

  lemma {:induction false} TrimEndPadded(x: string, post: string)
    requires AllSpace(post) && (x == [] || !IsSpace(x[|x| - 1]))
    ensures TrimEnd(x + post) == x
    decreases |post|
  {
    if post == [] {
      assert x + post == x;
    } else {
      var s := x + post;
      assert s[|s| - 1] == post[|post| - 1];
      assert s[..|s| - 1] == x + post[..|post| - 1];
      TrimEndPadded(x, post[..|post| - 1]);
    }
  }

  /** Stripping removes exactly the whitespace padding around a word, whatever it is. */
  lemma StripPadded(pre: string, w: string, post: string)
    requires AllSpace(pre) && AllSpace(post) && NoSpaceAtEnds(w)
    ensures Strip(pre + w + post) == w
  {
    if w == [] {
      assert pre + w + post == pre + post + [];
      assert AllSpace(pre + post) by {
        var s := pre + post;
        forall k | 0 <= k < |s| ensures IsSpace(s[k]) {
          if k < |pre| { assert s[k] == pre[k]; } else { assert s[k] == post[k - |pre|]; }
        }
      }
      TrimStartPadded(pre + post, []);
    } else {
      assert pre + w + post == pre + (w + post);
      assert (w + post)[0] == w[0];
      TrimStartPadded(pre, w + post);
      TrimEndPadded(w, post);
    }
  }

  lemma StripNoPadding(w: string)
    requires NoSpaceAtEnds(w)
    ensures Strip(w) == w
  {
    StripPadded([], w, []);
    assert [] + w + [] == w;
  }

  /**
   The length of the first line of a non-empty file text: up to and including
   the first newline, or all of it when there is none.
   */
  function LineEnd(s: string): (k: nat)
    requires |s| > 0
    ensures 0 < k <= |s|
    ensures forall j :: 0 <= j < k - 1 ==> s[j] != '\n'
    ensures k == |s| || s[k - 1] == '\n'
  {
    if s[0] == '\n' || |s| == 1 then 1 else 1 + LineEnd(s[1..])
  }

  /**
   The lines Python yields for `for line in f` over a text whose newlines have
   already been translated to '\n': each keeps its newline, and a last line
   without one is yielded too.
   */
  function Lines(s: string): seq<string>
    decreases |s|
  {
    if s == [] then [] else
    var k := LineEnd(s);
    [s[..k]] + Lines(s[k..])
  }

  function Concat(ls: seq<string>): string {
    if ls == [] then [] else ls[0] + Concat(ls[1..])
  }

  predicate IsLine(l: string) {
    |l| > 0 && (forall j :: 0 <= j < |l| - 1 ==> l[j] != '\n')
  }

  /** Splitting into lines loses nothing: the lines put back together are the text. */
  lemma {:induction false} LinesConcat(s: string)
    ensures Concat(Lines(s)) == s
    decreases |s|
  {
    if s != [] {
      var k := LineEnd(s);
      LinesConcat(s[k..]);
      assert Lines(s)[1..] == Lines(s[k..]);
      assert s[..k] + s[k..] == s;
    }
  }

  /** Every line is non-empty and holds a newline, if at all, only at its end. */
  lemma {:induction false} LinesAreLines(s: string)
    ensures forall i :: 0 <= i < |Lines(s)| ==> IsLine(Lines(s)[i])
    ensures forall i :: 0 <= i < |Lines(s)| - 1 ==> |Lines(s)[i]| > 0 && Lines(s)[i][|Lines(s)[i]| - 1] == '\n'
    decreases |s|
  {
    if s != [] {
      var k := LineEnd(s);
      LinesAreLines(s[k..]);
      forall i | 0 <= i < |Lines(s)| ensures IsLine(Lines(s)[i]) {
        if i > 0 { assert Lines(s)[i] == Lines(s[k..])[i - 1]; }
      }
      forall i | 0 <= i < |Lines(s)| - 1 ensures |Lines(s)[i]| > 0 && Lines(s)[i][|Lines(s)[i]| - 1] == '\n' {
        if i > 0 {
          assert Lines(s)[i] == Lines(s[k..])[i - 1];
        } else {
          assert s[k..] != [];
          assert Lines(s)[0] == s[..k];
        }
      }
    }
  }

  /** A text that is empty or ends in a newline: appending to it starts a new line. */
  predicate Terminated(s: string) {
    s == [] || s[|s| - 1] == '\n'
  }

  lemma {:induction false} LineEndAppend(s: string, t: string)
    requires s != [] && Terminated(s)
    ensures LineEnd(s + t) == LineEnd(s)
    decreases |s|
  {
    if s[0] != '\n' {
      assert |s| > 1;
      assert (s + t)[1..] == s[1..] + t;
      LineEndAppend(s[1..], t);
    }
  }

  /** The lines of a terminated text followed by more text are the lines of each. */
  lemma {:induction false} LinesAppend(s: string, t: string)
    requires Terminated(s)
    ensures Lines(s + t) == Lines(s) + Lines(t)
    decreases |s|
  {
    if s == [] {
      assert s + t == t;
    } else {
      var k, st := LineEnd(s), s + t;
      LineEndAppend(s, t);
      assert st[..k] == s[..k];
      assert st[k..] == s[k..] + t;
      assert Terminated(s[k..]);
      LinesAppend(s[k..], t);
      calc {
        Lines(st);
        [st[..k]] + Lines(st[k..]);
        [s[..k]] + (Lines(s[k..]) + Lines(t));
        ([s[..k]] + Lines(s[k..])) + Lines(t);
      }
    }
  }

  lemma {:induction false} LineEndOfWord(w: string)
    requires forall j :: 0 <= j < |w| ==> w[j] != '\n'
    ensures LineEnd(w + "\n") == |w| + 1
    decreases |w|
  {
    if w != [] {
      assert (w + "\n")[1..] == w[1..] + "\n";
      LineEndOfWord(w[1..]);
    }
  }

  lemma {:induction false} LineEndNoNewline(w: string)
    requires w != [] && forall j :: 0 <= j < |w| ==> w[j] != '\n'
    ensures LineEnd(w) == |w|
    decreases |w|
  {
    if |w| > 1 { LineEndNoNewline(w[1..]); }
  }

  /** A non-empty text without newlines is a single last line. */
  lemma LinesNoNewline(w: string)
    requires w != [] && forall j :: 0 <= j < |w| ==> w[j] != '\n'
    ensures Lines(w) == [w]
  {
    LineEndNoNewline(w);
    assert w[..|w|] == w;
    assert w[|w|..] == [];
  }

  /** A word without newlines followed by a newline is one line. */
  lemma SingleLine(w: string)
    requires forall j :: 0 <= j < |w| ==> w[j] != '\n'
    ensures Lines(w + "\n") == [w + "\n"]
  {
    var s := w + "\n";
    LineEndOfWord(w);
    assert s[..|s|] == s;
    assert s[|s|..] == [];
  }

  predicate IsDigit(c: char) {
    '0' <= c <= '9'
  }

  predicate AllDigits(s: string) {
    forall k :: 0 <= k < |s| ==> IsDigit(s[k])
  }

  function DigitChar(d: nat): (c: char)
    requires d < 10
    ensures IsDigit(c) && c as int - '0' as int == d
  {
    ('0' as int + d) as char
  }

  /** The decimal value of a string of digits, read left to right. */
  function DigitsValue(s: string): nat
    requires AllDigits(s)
  {
    if s == [] then 0 else DigitsValue(s[..|s| - 1]) * 10 + (s[|s| - 1] as int - '0' as int)
  }

  /** Python's `str(n)` for a non-negative integer: no leading zero, except for zero itself. */
  function FormatNat(n: nat): (s: string)
    ensures |s| > 0 && AllDigits(s)
    ensures s[0] == '0' <==> n == 0
    ensures n == 0 ==> s == "0"
  {
    if n < 10 then [DigitChar(n)] else FormatNat(n / 10) + [DigitChar(n % 10)]
  }

  /**
   Python's `str(n)`: a minus sign for negative numbers, then the digits,
   with no leading zero and no `"-0"`.
   */
  function FormatInt(n: int): (s: string)
    ensures |s| > 0
    ensures forall k :: 0 <= k < |s| ==> IsDigit(s[k]) || (k == 0 && s[k] == '-')
    ensures s[0] == '-' <==> n < 0
    ensures n < 0 ==> |s| > 1 && s[1] != '0'
    ensures s[0] == '0' <==> n == 0
    ensures n == 0 ==> s == "0"
  {
    if n < 0 then "-" + FormatNat(-n) else FormatNat(n)
  }

  /**
   The most decimal digits Python converts between text and `int`
   (`sys.get_int_max_str_digits()` by default); past it both directions
   raise `ValueError`.
   */
  const MAX_STR_DIGITS: nat := 4300

  /**
   Python's `int(s)` on text that has been stripped: an optional sign and one
   to MAX_STR_DIGITS decimal digits; anything else is the `ValueError` case,
   `None`.
   */
  function ParseInt(s: string): Option<int> {
    if |s| > 0 && (s[0] == '-' || s[0] == '+') then
      if 1 < |s| <= MAX_STR_DIGITS + 1 && AllDigits(s[1..]) then
        var v: int := DigitsValue(s[1..]);
        Some(if s[0] == '-' then -v else v)
      else None
    else if 0 < |s| <= MAX_STR_DIGITS && AllDigits(s) then Some(DigitsValue(s))
    else None
  }

  lemma {:induction false} FormatNatValue(n: nat)
    ensures DigitsValue(FormatNat(n)) == n
  {
    var s := FormatNat(n);
    if n >= 10 {
      assert s[..|s| - 1] == FormatNat(n / 10);
      FormatNatValue(n / 10);
    }
  }

  /** The number of decimal digits of `n`, the sign not counted. */
  function DigitCount(n: int): nat {
    if n < 0 then |FormatNat(-n)| else |FormatNat(n)|
  }

  /**
   Reading back what `str` wrote gives the number (`int(str(n)) == n`), for
   every number within the digit limit, where `str` itself succeeds.
   */
  lemma ParseFormat(n: int)
    requires DigitCount(n) <= MAX_STR_DIGITS
    ensures ParseInt(FormatInt(n)) == Some(n)
  {
    if n < 0 {
      assert FormatInt(n)[1..] == FormatNat(-n);
      FormatNatValue(-n);
    } else {
      FormatNatValue(n);
    }
  }

  lemma FormatIntInjective(a: int, b: int)
    requires FormatInt(a) == FormatInt(b)
    ensures a == b
  {
    if a < 0 {
      assert FormatInt(a)[1..] == FormatNat(-a) && FormatInt(b)[1..] == FormatNat(-b);
      FormatNatValue(-a);
      FormatNatValue(-b);
    } else {
      FormatNatValue(a);
      FormatNatValue(b);
    }
  }

  /** `str(n)` has no whitespace: it survives `strip()` unchanged. */
  lemma StripFormat(n: int)
    ensures Strip(FormatInt(n)) == FormatInt(n)
  {
    StripNoPadding(FormatInt(n));
  }
}
