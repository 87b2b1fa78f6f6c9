/**
 * The Kotlin string operations the task list relies on: `split` on a single
 * delimiter, `lines()`, `trim()`, ASCII `uppercase()`/`lowercase()`,
 * `substringBefore`/`substringAfter`, `repeat` and the newline join that
 * `addLn` builds up.
 */
module Strings {

  /** Concatenation is associative; stated once so proofs can regroup without comparing elements. */
  lemma AppendAssoc<T>(a: seq<T>, b: seq<T>, c: seq<T>)
    ensures a + b + c == a + (b + c)
  {
  }

  /** Taking all of a sequence gives the sequence. */
  lemma TakeAll<T>(s: seq<T>)
    ensures s[..|s|] == s
  {
  }

  /** `\n` and `\r`, the characters `lines()` breaks on. */
  predicate IsLineBreak(c: char) {
    c == '\n' || c == '\r'
  }

  predicate NoLineBreaks(s: string) {
    forall k :: 0 <= k < |s| ==> !IsLineBreak(s[k])
  }

  /** Kotlin's `Char.isWhitespace()` on the JVM: Java whitespace or a Unicode space separator. */
  predicate IsWhitespace(c: char) {
    || ('\t' <= c <= '\r')
    || ('\U{1C}' <= c <= ' ')
    || c == '\U{A0}' || c == '\U{1680}'
    || ('\U{2000}' <= c <= '\U{200A}')
    || c == '\U{2028}' || c == '\U{2029}' || c == '\U{202F}' || c == '\U{205F}' || c == '\U{3000}'
  }

  predicate IsBlank(s: string) {
    forall k :: 0 <= k < |s| ==> IsWhitespace(s[k])
  }

  /** `c.toString().repeat(n)`: `n` copies of `c`. */
  function Repeat(c: char, n: nat): (r: string)
    ensures |r| == n
    ensures forall k :: 0 <= k < n ==> r[k] == c
  {
    if n == 0 then [] else Repeat(c, n - 1) + [c]
  }

  /** `s.split(sep)`: every part, empty ones included; never an empty list. */
  function Split(s: string, sep: char): (parts: seq<string>)
    ensures |parts| >= 1
    ensures forall i :: 0 <= i < |parts| ==> sep !in parts[i]
    decreases |s|
  {
    if s == [] then [[]]
    else
      var rest := Split(s[1..], sep);
      if s[0] == sep then [[]] + rest
      else [[s[0]] + rest[0]] + rest[1..]
  }

  lemma {:induction false} SplitNoSep(s: string, sep: char)
    requires sep !in s
    ensures Split(s, sep) == [s]
    decreases |s|
  {
    if s != [] {
      SplitNoSep(s[1..], sep);
      assert [s[0]] + s[1..] == s;
    }
  }

  /** Splitting `a + sep + b` where `a` holds no separator yields `a` followed by the parts of `b`. */
  lemma {:induction false} SplitCons(a: string, sep: char, b: string)
    requires sep !in a
    ensures Split(a + [sep] + b, sep) == [a] + Split(b, sep)
    decreases |a|
  {
    var s := a + [sep] + b;
    if a == [] {
      assert s[1..] == b;
    } else {
      assert s[1..] == a[1..] + [sep] + b;
      SplitCons(a[1..], sep, b);
      assert [a[0]] + a[1..] == a;
    }
  }

  /** The three-part case used for `yyyy-mm-dd` strings. */
  lemma SplitThree(a: string, b: string, c: string, sep: char)
    requires sep !in a && sep !in b && sep !in c
    ensures Split(a + [sep] + b + [sep] + c, sep) == [a, b, c]
  {
    var rest := b + [sep] + c;
    assert a + [sep] + b + [sep] + c == a + [sep] + rest;
    SplitCons(a, sep, rest);
    SplitTwo(b, c, sep);
    assert [a] + [b, c] == [a, b, c];
  }

  /** The two-part case used for `hh:mm` strings. */
  lemma SplitTwo(a: string, b: string, sep: char)
    requires sep !in a && sep !in b
    ensures Split(a + [sep] + b, sep) == [a, b]
  {
    SplitCons(a, sep, b);
    SplitNoSep(b, sep);
  }

  /**
   * `s.lines()`: splits at `\r\n`, `\n` and `\r` (in that order of preference),
   * never an empty list, and no line holds a break.
   */
  function Lines(s: string): (ls: seq<string>)
    ensures |ls| >= 1
    ensures forall i :: 0 <= i < |ls| ==> NoLineBreaks(ls[i])
    decreases |s|
  {
    if s == [] then [[]]
    else if s[0] == '\n' then [[]] + Lines(s[1..])
    else if s[0] == '\r' then
      if |s| >= 2 && s[1] == '\n' then [[]] + Lines(s[2..]) else [[]] + Lines(s[1..])
    else
      var rest := Lines(s[1..]);
      [[s[0]] + rest[0]] + rest[1..]
  }

  /** The first line is empty exactly when the text is empty or starts with a line break. */
  lemma FirstLineEmpty(s: string)
    ensures Lines(s)[0] == [] <==> (s == [] || IsLineBreak(s[0]))
  {
  }

  /** Only the empty text has a single, empty line. */
  lemma OnlyEmptyLine(s: string)
    ensures Lines(s) == [[]] <==> s == []
  {
    if s != [] && !IsLineBreak(s[0]) {
      assert Lines(s)[0] == [s[0]] + Lines(s[1..])[0];
    }
  }

  lemma {:induction false} LinesNoBreak(a: string)
    requires NoLineBreaks(a)
    ensures Lines(a) == [a]
    decreases |a|
  {
    if a != [] {
      LinesNoBreak(a[1..]);
      assert [a[0]] + a[1..] == a;
    }
  }

  lemma {:induction false} LinesCons(a: string, b: string)
    requires NoLineBreaks(a)
    ensures Lines(a + "\n" + b) == [a] + Lines(b)
    decreases |a|
  {
    var s := a + "\n" + b;
    if a == [] {
      assert s[1..] == b;
    } else {
      assert s[1..] == a[1..] + "\n" + b;
      LinesCons(a[1..], b);
      assert [a[0]] + a[1..] == a;
    }
  }

  /** A newline after a text that does not end in `\r` closes its last line: the lines of the two parts follow one another. */
  lemma {:induction false} LinesJoin(a: string, b: string)
    requires a == [] || a[|a| - 1] != '\r'
    ensures Lines(a + "\n" + b) == Lines(a) + Lines(b)
    decreases |a|, 1
  {
    if a == [] {
      assert (a + "\n" + b)[1..] == b;
    } else if IsLineBreak(a[0]) {
      LinesJoinBreak(a, b);
    } else {
      LinesJoinChar(a, b);
    }
  }

  /** `LinesJoin` when `a` starts with a line break. */
  lemma {:induction false} LinesJoinBreak(a: string, b: string)
    requires a != [] && IsLineBreak(a[0]) && a[|a| - 1] != '\r'
    ensures Lines(a + "\n" + b) == Lines(a) + Lines(b)
    decreases |a|, 0
  {
    var s := a + "\n" + b;
    if a[0] == '\r' && a[1] == '\n' {
      assert s[2..] == a[2..] + "\n" + b;
      LinesJoin(a[2..], b);
    } else {
      assert s[1..] == a[1..] + "\n" + b;
      LinesJoin(a[1..], b);
    }
  }

  /** `LinesJoin` when `a` starts with an ordinary character. */
  lemma {:induction false} LinesJoinChar(a: string, b: string)
    requires a != [] && !IsLineBreak(a[0]) && a[|a| - 1] != '\r'
    ensures Lines(a + "\n" + b) == Lines(a) + Lines(b)
    decreases |a|, 0
  {
    var s := a + "\n" + b;
    assert s[1..] == a[1..] + "\n" + b;
    LinesJoin(a[1..], b);
  }

  /** `xs` joined with `"\n"`; the empty list joins to `""`. */
  function JoinLines(xs: seq<string>): string
    decreases |xs|
  {
    if |xs| == 0 then ""
    else if |xs| == 1 then xs[0]
    else xs[0] + "\n" + JoinLines(xs[1..])
  }

  /** Appending one more line to a non-empty join adds a newline and that line. */
  lemma {:induction false} JoinLinesSnoc(xs: seq<string>, x: string)
    requires |xs| >= 1
    ensures JoinLines(xs + [x]) == JoinLines(xs) + "\n" + x
    decreases |xs|
  {
    if |xs| > 1 {
      assert (xs + [x])[1..] == xs[1..] + [x];
      JoinLinesSnoc(xs[1..], x);
    }
  }

  /** Joining non-empty lines gives the empty string only for the empty list. */
  lemma JoinLinesEmpty(xs: seq<string>)
    requires forall i :: 0 <= i < |xs| ==> xs[i] != []
    ensures JoinLines(xs) == [] <==> xs == []
  {
    if |xs| >= 2 {
      assert |JoinLines(xs)| >= |xs[0]|;
    }
  }

  /** `lines()` undoes a newline join of break-free lines. */
  lemma {:induction false} LinesOfJoin(xs: seq<string>)
    requires |xs| >= 1
    requires forall i :: 0 <= i < |xs| ==> NoLineBreaks(xs[i])
    ensures Lines(JoinLines(xs)) == xs
    decreases |xs|
  {
    if |xs| == 1 {
      LinesNoBreak(xs[0]);
    } else {
      LinesOfJoin(xs[1..]);
      LinesCons(xs[0], JoinLines(xs[1..]));
    }
  }

  function TrimStart(s: string): string
    decreases |s|
  {
    if s != [] && IsWhitespace(s[0]) then TrimStart(s[1..]) else s
  }

  function TrimEnd(s: string): string
    decreases |s|
  {
    if s != [] && IsWhitespace(s[|s| - 1]) then TrimEnd(s[..|s| - 1]) else s
  }

  /** `TrimStart` drops a blank prefix and stops at a non-whitespace character. */
  lemma {:induction false} TrimStartSpec(s: string)
    ensures |TrimStart(s)| <= |s| && TrimStart(s) == s[|s| - |TrimStart(s)|..]
    ensures TrimStart(s) == [] || !IsWhitespace(TrimStart(s)[0])
    ensures IsBlank(s[..|s| - |TrimStart(s)|])
    decreases |s|
  {
    if s != [] && IsWhitespace(s[0]) {
      TrimStartSpec(s[1..]);
      var r := TrimStart(s[1..]);
      assert forall k :: 0 < k < |s| - |r| ==> s[1..][k - 1] == s[k];
    }
  }

  /** `TrimEnd` drops a blank suffix and stops at a non-whitespace character. */
  lemma {:induction false} TrimEndSpec(s: string)
    ensures |TrimEnd(s)| <= |s| && TrimEnd(s) == s[..|TrimEnd(s)|]
    ensures TrimEnd(s) == [] || !IsWhitespace(TrimEnd(s)[|TrimEnd(s)| - 1])
    ensures IsBlank(s[|TrimEnd(s)|..])
    decreases |s|
  {
    if s != [] && IsWhitespace(s[|s| - 1]) {
      TrimEndSpec(s[..|s| - 1]);
      var r := TrimEnd(s[..|s| - 1]);
      assert forall k :: |r| <= k < |s| - 1 ==> s[..|s| - 1][k] == s[k];
    }
  }

  /** `s.trim()`: `s` without its leading and trailing whitespace; `TrimEnds` and `TrimSlice` say what it keeps. */
  function Trim(s: string): string {
    TrimEnd(TrimStart(s))
  }

  /**
   * The trimmed string starts and ends with a non-whitespace character, and
   * it is empty exactly when `s` is blank.
   */
  lemma TrimEnds(s: string)
    ensures Trim(s) == [] || (!IsWhitespace(Trim(s)[0]) && !IsWhitespace(Trim(s)[|Trim(s)| - 1]))
    ensures Trim(s) == [] <==> IsBlank(s)
  {
    var t := TrimStart(s);
    TrimStartSpec(s);
    TrimEndSpec(t);
    var r := TrimEnd(t);
    if r == [] {
      assert s == s[..|s| - |t|] + t;
      assert t == t[|r|..];
    } else {
      assert r[0] == t[0];
    }
  }

  /** `trim()` cuts a blank prefix and a blank suffix and keeps what lies between. */
  lemma TrimSlice(s: string)
    ensures exists i, j :: 0 <= i <= j <= |s| && Trim(s) == s[i..j] && IsBlank(s[..i]) && IsBlank(s[j..])
  {
    var t := TrimStart(s);
    TrimStartSpec(s);
    TrimEndSpec(t);
    var r := TrimEnd(t);
    var i := |s| - |t|;
    assert r == s[i..i + |r|];
    assert s[i + |r|..] == t[|r|..];
  }

  function UpperChar(c: char): char {
    if 'a' <= c <= 'z' then (c as int - 'a' as int + 'A' as int) as char else c
  }

  function LowerChar(c: char): char {
    if 'A' <= c <= 'Z' then (c as int - 'A' as int + 'a' as int) as char else c
  }

  /** `s.uppercase()` restricted to ASCII letters. */
  function ToUpper(s: string): (r: string)
    ensures |r| == |s| && forall k :: 0 <= k < |s| ==> r[k] == UpperChar(s[k])
  {
    seq(|s|, k requires 0 <= k < |s| => UpperChar(s[k]))
  }

  /** `s.lowercase()` restricted to ASCII letters. */
  function ToLower(s: string): (r: string)
    ensures |r| == |s| && forall k :: 0 <= k < |s| ==> r[k] == LowerChar(s[k])
  {
    seq(|s|, k requires 0 <= k < |s| => LowerChar(s[k]))
  }

  /** `s.substringBefore(c)`: everything before the first `c`, or all of `s` when there is none. */
  function SubstringBefore(s: string, c: char): string
    decreases |s|
  {
    if s == [] || s[0] == c then [] else [s[0]] + SubstringBefore(s[1..], c)
  }

  /** `s.substringAfter(c)`: everything after the first `c`, or all of `s` when there is none. */
  function SubstringAfter(s: string, c: char): string
    decreases |s|
  {
    if s == [] then s
    else if s[0] == c then s[1..]
    else if c in s[1..] then SubstringAfter(s[1..], c)
    else s
  }

  lemma {:induction false} SubstringAround(a: string, c: char, b: string)
    requires c !in a
    ensures SubstringBefore(a + [c] + b, c) == a
    ensures SubstringAfter(a + [c] + b, c) == b
    decreases |a|
  {
    var s := a + [c] + b;
    if a == [] {
      assert s[1..] == b;
    } else {
      assert s[1..] == a[1..] + [c] + b;
      assert c in s[1..] by { assert s[1..][|a| - 1] == c; }
      SubstringAround(a[1..], c, b);
      assert [a[0]] + a[1..] == a;
    }
  }
}
