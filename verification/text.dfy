/**
 * String helpers: decimal rendering of integers (Python `str(int)` and C
 * `%d`), character counting, joining, and Python's `str.splitlines`.
 */
module Text {
  import opened Fallible

  predicate IsDigit(c: char) { '0' <= c <= '9' }

  function Digit(d: nat): (c: char)
    requires d < 10
    ensures IsDigit(c) && (c as int) - ('0' as int) == d
  {
    (('0' as int) + d) as char
  }

  function DigitValue(c: char): (d: nat)
    requires IsDigit(c)
    ensures d < 10
  {
    (c as int) - ('0' as int)
  }

  predicate AllDigits(s: string)
  {
    forall i :: 0 <= i < |s| ==> IsDigit(s[i])
  }

  /** Decimal digits of `n` without leading zeros. */
  function NatToString(n: nat): (s: string)
    ensures |s| >= 1 && AllDigits(s)
    ensures |s| > 1 ==> s[0] != '0'
    decreases n
  {
    if n < 10 then [Digit(n)] else NatToString(n / 10) + [Digit(n % 10)]
  }

  /** Python `str(i)` / C `%d` for an integer of either sign. */
  function IntToString(i: int): (s: string)
    ensures |s| >= 1
    ensures forall k :: 0 <= k < |s| ==> s[k] == '-' || IsDigit(s[k])
  {
    if i < 0 then "-" + NatToString(-i) else NatToString(i)
  }

  /** Reads a digit string back as a number (reference for `NatToString`). */
  function ParseNat(s: string): nat
    requires AllDigits(s)
  {
    if s == [] then 0 else ParseNat(s[..|s| - 1]) * 10 + DigitValue(s[|s| - 1])
  }

  lemma {:induction false} ParseNatRoundTrip(n: nat)
    ensures ParseNat(NatToString(n)) == n
    decreases n
  {
    if n >= 10 {
      var s := NatToString(n);
      assert s[..|s| - 1] == NatToString(n / 10);
      ParseNatRoundTrip(n / 10);
    }
  }

  lemma IntToStringSign(i: int)
    ensures IntToString(i)[0] == '-' <==> i < 0
  {
    if i >= 0 {
      assert IsDigit(NatToString(i)[0]);
    }
  }

  lemma IntToStringInjective(a: int, b: int)
    requires IntToString(a) == IntToString(b)
    ensures a == b
  {
    var s := IntToString(a);
    IntToStringSign(a);
    IntToStringSign(b);
    if a < 0 && b < 0 {
      assert NatToString(-a) == s[1..] == NatToString(-b);
      ParseNatRoundTrip(-a);
      ParseNatRoundTrip(-b);
    } else if a >= 0 && b >= 0 {
      ParseNatRoundTrip(a);
      ParseNatRoundTrip(b);
    }
  }

  /** Number of occurrences of `c` in `s`. */
  function CountChar(s: string, c: char): nat
  {
    multiset(s)[c]
  }

  /** A character that does not occur is counted zero times. */
  lemma CountAbsent(s: string, c: char)
    requires c !in s
    ensures CountChar(s, c) == 0
  {
  }

  lemma IntToStringHasNo(i: int, c: char)
    requires c != '-' && !IsDigit(c)
    ensures c !in IntToString(i)
  {
  }

  /** `sep.join(parts)`. */
  function Join(sep: string, parts: seq<string>): string
  {
    if |parts| == 0 then ""
    else if |parts| == 1 then parts[0]
    else parts[0] + sep + Join(sep, parts[1..])
  }

  /** Concatenation of all parts. */
  function Concat(parts: seq<string>): string
  {
    if parts == [] then "" else parts[0] + Concat(parts[1..])
  }

  lemma {:induction false} ConcatAppend(a: seq<string>, b: seq<string>)
    ensures Concat(a + b) == Concat(a) + Concat(b)
    decreases |a|
  {
    if a != [] {
      assert (a + b)[0] == a[0] && (a + b)[1..] == a[1..] + b;
      ConcatAppend(a[1..], b);
    } else {
      assert a + b == b;
    }
  }

  /** The line boundaries Python's `str.splitlines` recognises. */
  predicate IsLineBreak(c: char)
  {
    c == '\n' || c == '\r' || c == '\U{000B}' || c == '\U{000C}' || c == '\U{001C}'
    || c == '\U{001D}' || c == '\U{001E}' || c == '\U{0085}' || c == '\U{2028}' || c == '\U{2029}'
  }

  /** Index of the first line boundary at or after `from`, or `|s|`. */
  function FirstBreak(s: string, from: nat): (i: nat)
    requires from <= |s|
    ensures from <= i <= |s|
    ensures i < |s| ==> IsLineBreak(s[i])
    ensures forall k :: from <= k < i ==> !IsLineBreak(s[k])
    decreases |s| - from
  {
    if from == |s| || IsLineBreak(s[from]) then from else FirstBreak(s, from + 1)
  }

  /**
   * Python `str.splitlines()`: no trailing empty line after a final
   * boundary, `\r\n` counts as one boundary, and the empty string has no
   * lines.
   */
  function SplitLines(s: string): (lines: seq<string>)
    ensures s != "" <==> |lines| >= 1
    decreases |s|
  {
    if s == "" then []
    else
      var i := FirstBreak(s, 0);
      if i == |s| then [s]
      else
        var width := if s[i] == '\r' && i + 1 < |s| && s[i + 1] == '\n' then 2 else 1;
        [s[..i]] + SplitLines(s[i + width..])
  }

  /** `s` with every line boundary removed: what the lines concatenate to. */
  function DropBreaks(s: string): string
  {
    if s == [] then [] else (if IsLineBreak(s[0]) then [] else [s[0]]) + DropBreaks(s[1..])
  }

  lemma {:induction false} DropBreaksAppend(a: string, b: string)
    ensures DropBreaks(a + b) == DropBreaks(a) + DropBreaks(b)
    decreases |a|
  {
    if a != [] {
      assert (a + b)[0] == a[0] && (a + b)[1..] == a[1..] + b;
      DropBreaksAppend(a[1..], b);
    } else {
      assert a + b == b;
    }
  }

  lemma {:induction false} DropBreaksNone(s: string)
    requires forall k :: 0 <= k < |s| ==> !IsLineBreak(s[k])
    ensures DropBreaks(s) == s
    decreases |s|
  {
    if s != [] {
      DropBreaksNone(s[1..]);
    }
  }

  lemma {:induction false} DropBreaksAllBreaks(s: string)
    requires forall k :: 0 <= k < |s| ==> IsLineBreak(s[k])
    ensures DropBreaks(s) == []
    decreases |s|
  {
    if s != [] {
      DropBreaksAllBreaks(s[1..]);
    }
  }

  /** No line of `SplitLines(s)` holds a line boundary. */
  lemma {:induction false} SplitLinesNoBreaks(s: string)
    ensures forall j, k :: 0 <= j < |SplitLines(s)| && 0 <= k < |SplitLines(s)[j]| ==> !IsLineBreak(SplitLines(s)[j][k])
    decreases |s|
  {
    if s != "" {
      var i := FirstBreak(s, 0);
      if i < |s| {
        var width := if s[i] == '\r' && i + 1 < |s| && s[i + 1] == '\n' then 2 else 1;
        SplitLinesNoBreaks(s[i + width..]);
      }
    }
  }

  lemma DropBreaksAround(head: string, brk: string, rest: string)
    requires forall k :: 0 <= k < |head| ==> !IsLineBreak(head[k])
    requires forall k :: 0 <= k < |brk| ==> IsLineBreak(brk[k])
    ensures DropBreaks(head + brk + rest) == head + DropBreaks(rest)
  {
    DropBreaksNone(head);
    DropBreaksAllBreaks(brk);
    DropBreaksAppend(head, brk);
    DropBreaksAppend(head + brk, rest);
  }

  /** The lines together hold every non-boundary character of `s`, in order. */
  lemma {:induction false} SplitLinesConcat(s: string)
    ensures Concat(SplitLines(s)) == DropBreaks(s)
    decreases |s|
  {
    if s != "" {
      var i := FirstBreak(s, 0);
      if i == |s| {
        DropBreaksNone(s);
      } else {
        var width := if s[i] == '\r' && i + 1 < |s| && s[i + 1] == '\n' then 2 else 1;
        var head, brk, rest := s[..i], s[i..i + width], s[i + width..];
        assert s == head + brk + rest;
        assert forall k :: 0 <= k < |brk| ==> IsLineBreak(brk[k]);
        SplitLinesConcat(rest);
        DropBreaksAround(head, brk, rest);
      }
    }
  }

  /** Text of `lines`, each followed by a newline, as a command prints it. */
  function Lines(ls: seq<string>): string
  {
    if ls == [] then "" else ls[0] + "\n" + Lines(ls[1..])
  }

  predicate NoBreaks(s: string)
  {
    forall k :: 0 <= k < |s| ==> !IsLineBreak(s[k])
  }

  lemma FirstBreakAt(s: string, i: nat)
    requires i < |s| && IsLineBreak(s[i])
    requires forall k :: 0 <= k < i ==> !IsLineBreak(s[k])
    ensures FirstBreak(s, 0) == i
  {
  }

  /** `splitlines` recovers the lines of newline-terminated text. */
  lemma {:induction false} SplitLinesOfLines(ls: seq<string>)
    requires forall j :: 0 <= j < |ls| ==> NoBreaks(ls[j])
    ensures SplitLines(Lines(ls)) == ls
    decreases |ls|
  {
    if ls != [] {
      var s := Lines(ls);
      var l := ls[0];
      assert s == l + "\n" + Lines(ls[1..]);
      assert s[|l|] == '\n';
      assert forall k :: 0 <= k < |l| ==> s[k] == l[k];
      FirstBreakAt(s, |l|);
      assert s[..|l|] == l;
      assert s[|l| + 1..] == Lines(ls[1..]);
      SplitLinesOfLines(ls[1..]);
    }
  }

  /** Words separated by single spaces, each preceded by one space. */
  function SpaceJoin(ws: seq<string>): string
  {
    if ws == [] then "" else " " + ws[0] + SpaceJoin(ws[1..])
  }

  lemma {:induction false} SpaceJoinAppend(a: seq<string>, b: seq<string>)
    ensures SpaceJoin(a + b) == SpaceJoin(a) + SpaceJoin(b)
    decreases |a|
  {
    if a != [] {
      assert (a + b)[0] == a[0] && (a + b)[1..] == a[1..] + b;
      SpaceJoinAppend(a[1..], b);
    } else {
      assert a + b == b;
    }
  }

  /** A shell word: non-empty and free of spaces. */
  predicate IsWord(w: string)
  {
    w != "" && ' ' !in w
  }

  /** Index of the first `c` in `s`, or `|s|`. */
  function FirstOf(s: string, c: char): (i: nat)
    ensures i <= |s|
    ensures i < |s| ==> s[i] == c
    ensures forall k :: 0 <= k < i ==> s[k] != c
  {
    if s == "" || s[0] == c then 0 else 1 + FirstOf(s[1..], c)
  }

  /** Shell-style splitting on spaces: runs of spaces separate words. */
  function Words(s: string): seq<string>
    decreases |s|
  {
    if s == "" then []
    else if s[0] == ' ' then Words(s[1..])
    else
      var i := FirstOf(s, ' ');
      [s[..i]] + Words(s[i..])
  }

  /** The first `c` of `w + rest` is the one that starts `rest`. */
  lemma FirstOfAfter(w: string, c: char, rest: string)
    requires c !in w
    requires rest == "" || rest[0] == c
    ensures FirstOf(w + rest, c) == |w|
  {
    var s := w + rest;
    assert forall k :: 0 <= k < |w| ==> s[k] == w[k];
    assert |w| < |s| ==> s[|w|] == c;
  }

  /** Splitting space-joined words gives the words back. */
  lemma {:induction false} WordsSpaceJoin(ws: seq<string>)
    requires forall j :: 0 <= j < |ws| ==> IsWord(ws[j])
    ensures Words(SpaceJoin(ws)) == ws
    decreases |ws|
  {
    if ws != [] {
      var w, rest := ws[0], SpaceJoin(ws[1..]);
      assert SpaceJoin(ws) == " " + (w + rest);
      assert (" " + (w + rest))[1..] == w + rest;
      assert rest == "" || rest[0] == ' ';
      FirstOfAfter(w, ' ', rest);
      assert (w + rest)[..|w|] == w;
      assert (w + rest)[|w|..] == rest;
      WordsSpaceJoin(ws[1..]);
    }
  }
}
