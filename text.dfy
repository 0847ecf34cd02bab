/**
 * Python `str` operations the extractor relies on: whitespace, `strip()`,
 * `split(sep)` with its inverse `sep.join(...)`, `startswith` and the `in`
 * substring test.
 */
module Text {

  /** Python's `str.isspace()` for one character; `\s` in a `str` regex matches the same set. */
  predicate IsSpace(c: char) {
    var n := c as int;
    (9 <= n <= 13) || (28 <= n <= 32) || n == 0x85 || n == 0xA0 || n == 0x1680
    || (0x2000 <= n <= 0x200A) || n == 0x2028 || n == 0x2029 || n == 0x202F
    || n == 0x205F || n == 0x3000
  }

  predicate AllSpace(s: string) {
    forall i :: 0 <= i < |s| ==> IsSpace(s[i])
  }

  /** Number of whitespace characters at the front of `s` (a greedy `\s*`). */
  function SpaceRun(s: string): (n: nat)
    ensures n <= |s|
    ensures AllSpace(s[..n])
    ensures n == |s| || !IsSpace(s[n])
  {
    if s != [] && IsSpace(s[0]) then 1 + SpaceRun(s[1..]) else 0
  }

  /** Number of whitespace characters at the back of `s`. */
  function TrailRun(s: string): (n: nat)
    ensures n <= |s|
    ensures AllSpace(s[|s| - n..])
    ensures n == |s| || !IsSpace(s[|s| - 1 - n])
  {
    if s != [] && IsSpace(s[|s| - 1]) then 1 + TrailRun(s[..|s| - 1]) else 0
  }

  /** True when `s` has no whitespace at either end (`s == s.strip()` in Python). */
  predicate Trimmed(s: string) {
    s == [] || (!IsSpace(s[0]) && !IsSpace(s[|s| - 1]))
  }

  /**
   * Python's `s.strip()`: the slice of `s` left once the whitespace at both
   * ends is removed; everything removed is whitespace.
   */
  function Strip(s: string): (r: string)
    ensures Trimmed(r)
  {
    var i := SpaceRun(s);
    var a := s[i..];
    var r := a[..|a| - TrailRun(a)];
    StripEnds(s, i, a, r);
    r
  }

  /** `strip()` removes only whitespace, and only at the ends: its result is a slice of `s` between two runs of whitespace. */
  lemma StripIsSlice(s: string)
    ensures exists i: nat :: i + |Strip(s)| <= |s| && Strip(s) == s[i..i + |Strip(s)|]
                             && AllSpace(s[..i]) && AllSpace(s[i + |Strip(s)|..])
  {
    StripSlice(s, SpaceRun(s), s[SpaceRun(s)..], Strip(s));
  }

  /** What is left between the two whitespace runs lies between two runs of whitespace. */
  lemma StripSlice(s: string, i: nat, a: string, r: string)
    requires i == SpaceRun(s) && a == s[i..] && r == a[..|a| - TrailRun(a)]
    ensures i + |r| <= |s| && r == s[i..i + |r|] && AllSpace(s[..i]) && AllSpace(s[i + |r|..])
  {
    assert s[i + |r|..] == a[|a| - TrailRun(a)..];
  }

  /** What is left between the two whitespace runs neither starts nor ends with whitespace. */
  lemma StripEnds(s: string, i: nat, a: string, r: string)
    requires i == SpaceRun(s) && a == s[i..] && r == a[..|a| - TrailRun(a)]
    ensures Trimmed(r)
  {
    if r != [] {
      var t := TrailRun(a);
      assert i < |s| && !IsSpace(s[i]);
      assert r[0] == s[i];
      assert t < |a| && !IsSpace(a[|a| - 1 - t]);
      assert r[|r| - 1] == a[|a| - 1 - t];
    }
  }

  /** Python's `s.startswith(t)`. */
  predicate StartsWith(s: string, t: string) {
    |t| <= |s| && s[..|t|] == t
  }

  /** Python's `t in s` for strings: `t` occurs somewhere in `s`. */
  function Contains(s: string, t: string): (b: bool)
    ensures b <==> exists i :: 0 <= i <= |s| && StartsWith(s[i..], t)
    decreases |s|
  {
    if StartsWith(s, t) then
      assert s[0..] == s;
      true
    else if s == [] then
      false
    else
      var b := Contains(s[1..], t);
      assert forall i :: 1 <= i <= |s| ==> s[i..] == s[1..][i - 1..];
      b
  }

  /** Index of the first `c` in `s`, or `|s|` when there is none. */
  function IndexOf(s: string, c: char): (i: nat)
    ensures i <= |s|
    ensures i < |s| ==> s[i] == c
    ensures c !in s[..i]
  {
    if s == [] || s[0] == c then 0
    else
      var j := IndexOf(s[1..], c);
      assert s[..1 + j] == [s[0]] + s[1..][..j];
      1 + j
  }

  /** Index of the last `c` in `s`, or `|s|` when there is none. */
  function LastIndexOf(s: string, c: char): (i: nat)
    ensures i <= |s|
    ensures i < |s| ==> s[i] == c && c !in s[i + 1..]
    ensures i == |s| ==> c !in s
  {
    if s == [] then 0
    else if s[|s| - 1] == c then |s| - 1
    else
      var j := LastIndexOf(s[..|s| - 1], c);
      if j == |s| - 1 then
        assert s == s[..|s| - 1] + [s[|s| - 1]];
        |s|
      else
        assert s[j + 1..] == s[..|s| - 1][j + 1..] + [s[|s| - 1]];
        j
  }

  /** `sep.join(parts)`. */
  function Join(parts: seq<string>, sep: char): string
    requires |parts| >= 1
  {
    if |parts| == 1 then parts[0] else parts[0] + [sep] + Join(parts[1..], sep)
  }

  /**
   * Python's `s.split(sep)` for a one-character separator: the pieces between
   * separators, in order; `sep.join` of them gives `s` back.
   */
  function Split(s: string, sep: char): (parts: seq<string>)
    ensures |parts| >= 1
    ensures forall k :: 0 <= k < |parts| ==> sep !in parts[k]
    ensures Join(parts, sep) == s
    decreases |s|
  {
    var i := IndexOf(s, sep);
    if i == |s| then
      assert s[..i] == s;
      [s]
    else
      var rest := Split(s[i + 1..], sep);
      var parts := [s[..i]] + rest;
      assert parts[1..] == rest;
      assert s == s[..i] + [sep] + s[i + 1..];
      parts
  }

  /** `IndexOf` finds the first occurrence: nothing before it in `a`, and `b` starts with `c` or is empty. */
  lemma {:induction false} IndexOfBefore(a: string, c: char, b: string)
    requires c !in a
    requires b == [] || b[0] == c
    ensures IndexOf(a + b, c) == |a|
  {
    if a != [] {
      assert (a + b)[1..] == a[1..] + b;
      IndexOfBefore(a[1..], c, b);
    } else {
      assert a + b == b;
    }
  }

  /** Splitting a piece off the front: `(a + sep + b).split(sep) == [a] + b.split(sep)` when `a` has no `sep`. */
  lemma SplitCons(a: string, sep: char, b: string)
    requires sep !in a
    ensures Split(a + [sep] + b, sep) == [a] + Split(b, sep)
  {
    var s := a + [sep] + b;
    assert s == a + ([sep] + b);
    IndexOfBefore(a, sep, [sep] + b);
    assert s[..|a|] == a;
    assert s[|a| + 1..] == b;
  }

  /** `split` undoes `join` when no piece contains the separator. */
  lemma {:induction false} SplitJoin(parts: seq<string>, sep: char)
    requires |parts| >= 1
    requires forall k :: 0 <= k < |parts| ==> sep !in parts[k]
    ensures Split(Join(parts, sep), sep) == parts
  {
    if |parts| == 1 {
      assert IndexOf(parts[0], sep) == |parts[0]|;
      assert parts[0][..|parts[0]|] == parts[0];
    } else {
      SplitJoin(parts[1..], sep);
      SplitCons(parts[0], sep, Join(parts[1..], sep));
    }
  }

  lemma {:induction false} SpaceRunAfter(w: string, x: string)
    requires AllSpace(w)
    requires x == [] || !IsSpace(x[0])
    ensures SpaceRun(w + x) == |w|
  {
    if w != [] {
      assert (w + x)[1..] == w[1..] + x;
      SpaceRunAfter(w[1..], x);
    } else {
      assert w + x == x;
    }
  }

  lemma {:induction false} SpaceRunExact(s: string, n: nat)
    requires n <= |s| && AllSpace(s[..n]) && (n == |s| || !IsSpace(s[n]))
    ensures SpaceRun(s) == n
  {
    if n > 0 {
      assert IsSpace(s[..n][0]);
      assert s[1..][..n - 1] == s[1..n];
      SpaceRunExact(s[1..], n - 1);
    }
  }

  lemma {:induction false} TrailRunBefore(x: string, w: string)
    requires AllSpace(w)
    requires x == [] || !IsSpace(x[|x| - 1])
    ensures TrailRun(x + w) == |w|
  {
    if w != [] {
      assert (x + w)[..|x + w| - 1] == x + w[..|w| - 1];
      TrailRunBefore(x, w[..|w| - 1]);
    } else {
      assert x + w == x;
    }
  }

  /**
   * `strip()` is exact: whatever whitespace surrounds a trimmed core, the
   * core is what comes back.
   */
  lemma StripAround(w1: string, x: string, w2: string)
    requires AllSpace(w1) && AllSpace(w2) && x != [] && Trimmed(x)
    ensures Strip(w1 + x + w2) == x
  {
    var s := w1 + x + w2;
    assert s == w1 + (x + w2);
    SpaceRunAfter(w1, x + w2);
    var a := s[|w1|..];
    assert a == x + w2;
    TrailRunBefore(x, w2);
    assert a[..|a| - |w2|] == x;
  }

  /** A trimmed string is its own `strip()`. */
  lemma StripTrimmed(x: string)
    requires Trimmed(x)
    ensures Strip(x) == x
  {
    if x == [] {
      assert SpaceRun(x) == 0;
    } else {
      StripAround([], x, []);
      assert [] + x + [] == x;
    }
  }

  /** Text written one line at a time, each line followed by `\n`. */
  function Unlines(lines: seq<string>): string {
    if lines == [] then [] else lines[0] + "\n" + Unlines(lines[1..])
  }

  /** The lines of `s`, each without its `\n`; a last line without one is kept. */
  function Lines(s: string): seq<string>
    decreases |s|
  {
    if s == [] then []
    else
      var i := IndexOf(s, '\n');
      if i == |s| then [s] else [s[..i]] + Lines(s[i + 1..])
  }

  /**
   * Concatenation regroups freely. Dafny knows this; the lemma only names the
   * step for proofs that would otherwise search for it, and models nothing.
   */
  lemma Regroup(a: string, b: string, c: string)
    ensures a + b + c == a + (b + c)
  {
  }

  /** Writing lines one after the other. */
  lemma {:induction false} UnlinesConcat(a: seq<string>, b: seq<string>)
    ensures Unlines(a + b) == Unlines(a) + Unlines(b)
  {
    if a != [] {
      assert (a + b)[1..] == a[1..] + b;
      UnlinesConcat(a[1..], b);
    } else {
      assert a + b == b;
    }
  }

  /** Three runs of lines written one after the other. */
  lemma UnlinesThree(a: seq<string>, b: seq<string>, c: seq<string>)
    ensures Unlines(a + b + c) == Unlines(a) + (Unlines(b) + Unlines(c))
  {
    UnlinesConcat(a + b, c);
    UnlinesConcat(a, b);
  }

  /** The text of the lines, split at line `i`. */
  lemma UnlinesAt(lines: seq<string>, i: nat)
    requires i < |lines|
    ensures Unlines(lines) == Unlines(lines[..i]) + (lines[i] + ("\n" + Unlines(lines[i + 1..])))
  {
    var head, tail, after := lines[..i], lines[i..], lines[i + 1..];
    assert head + tail == lines;
    UnlinesConcat(head, tail);
    assert tail[0] == lines[i] && tail[1..] == after;
    UnlinesFront(tail);
  }

  /** The text of non-empty lines: the first line, its newline, then the rest. */
  lemma UnlinesFront(lines: seq<string>)
    requires lines != []
    ensures Unlines(lines) == lines[0] + ("\n" + Unlines(lines[1..]))
  {
  }

  /** A character other than `\n` that no line holds is nowhere in their text. */
  lemma {:induction false} UnlinesLacks(lines: seq<string>, c: char)
    requires c != '\n'
    requires forall k :: 0 <= k < |lines| ==> c !in lines[k]
    ensures c !in Unlines(lines)
  {
    if lines != [] {
      assert c !in lines[0];
      UnlinesLacks(lines[1..], c);
    }
  }

  /** Two lines and a blank one, written one line at a time after `u`. */
  lemma UnlinesTwoAndBlank(u: string, a: string, b: string)
    ensures u + Unlines([a, b, ""]) == u + a + "\n" + b + "\n" + "\n"
  {
    assert [a, b, ""][1..] == [b, ""];
    assert [b, ""][1..] == [""];
    assert [""][1..] == [];
    assert Unlines([""]) == "\n";
    assert Unlines([b, ""]) == b + "\n" + "\n";
    assert Unlines([a, b, ""]) == a + "\n" + (b + "\n" + "\n");
  }

  /** Reading the lines back gives what was written, when no line holds a `\n` of its own. */
  lemma {:induction false} LinesUnlines(lines: seq<string>)
    requires forall k :: 0 <= k < |lines| ==> '\n' !in lines[k]
    ensures Lines(Unlines(lines)) == lines
  {
    if lines != [] {
      var s := Unlines(lines);
      var rest := Unlines(lines[1..]);
      assert s == lines[0] + ("\n" + rest);
      IndexOfBefore(lines[0], '\n', "\n" + rest);
      assert s[..|lines[0]|] == lines[0];
      assert s[|lines[0]| + 1..] == rest;
      LinesUnlines(lines[1..]);
    }
  }

  /**
   * No occurrence of `needle` starts inside `line` or the `tail` written after
   * it, when `line` does not contain it and no character of `tail` is in it.
   */
  lemma NeedleNotInLine(needle: string, line: string, tail: string, rest: string)
    requires needle != [] && !Contains(line, needle)
    requires tail != [] && forall j :: 0 <= j < |tail| ==> tail[j] !in needle
    ensures forall i :: 0 <= i < |line| + |tail| ==> !StartsWith((line + tail + rest)[i..], needle)
  {
    var s := line + tail + rest;
    forall i | 0 <= i < |line| + |tail|
      ensures !StartsWith(s[i..], needle)
    {
      if i >= |line| {
        assert s[i..][0] == tail[i - |line|];
        MismatchAt(s[i..], needle, 0);
      } else if i + |needle| <= |line| {
        assert !StartsWith(line[i..], needle);
        assert s[i..][..|needle|] == line[i..][..|needle|];
      } else {
        assert s[i..][|line| - i] == tail[0];
        MismatchAt(s[i..], needle, |line| - i);
      }
    }
  }

  /** One differing position rules out a prefix. */
  lemma MismatchAt(s: string, t: string, j: nat)
    requires j < |t| && (j >= |s| || s[j] != t[j])
    ensures !StartsWith(s, t)
  {
    if |t| <= |s| {
      assert s[..|t|][j] != t[j];
    }
  }

  /** A text in which the first two characters of `needle` never stand side by side does not contain it. */
  lemma NoPairIn(s: string, needle: string)
    requires |needle| >= 2
    requires forall i :: 0 <= i && i + |needle| <= |s| ==> s[i] != needle[0] || s[i + 1] != needle[1]
    ensures !Contains(s, needle)
  {
    forall i | 0 <= i <= |s|
      ensures !StartsWith(s[i..], needle)
    {
      if i + |needle| <= |s| {
        if s[i] != needle[0] {
          MismatchAt(s[i..], needle, 0);
        } else {
          MismatchAt(s[i..], needle, 1);
        }
      }
    }
  }

  /** A lead without the first character of `needle` adds no occurrence of it. */
  lemma PrefixedLacks(a: string, x: string, needle: string)
    requires needle != [] && needle[0] !in a && !Contains(x, needle)
    ensures !Contains(a + x, needle)
  {
    var s := a + x;
    forall i | 0 <= i <= |s|
      ensures !StartsWith(s[i..], needle)
    {
      if i < |a| {
        assert s[i..][0] == a[i];
        MismatchAt(s[i..], needle, 0);
      } else {
        assert s[i..] == x[i - |a|..];
      }
    }
  }

  /** A text without the first character of `needle` does not contain it. */
  lemma NoFirstIn(s: string, needle: string)
    requires needle != [] && needle[0] !in s
    ensures !Contains(s, needle)
  {
    assert !Contains([], needle);
    PrefixedLacks(s, [], needle);
    assert s + [] == s;
  }

  /** A character of the sought text that is missing from `s` rules the text out. */
  lemma ContainsNeeds(s: string, t: string, k: nat)
    requires k < |t| && t[k] !in s
    ensures !Contains(s, t)
  {
    forall i | 0 <= i <= |s| && |t| <= |s| - i
      ensures s[i..][..|t|][k] != t[k]
    {
      assert s[i..][..|t|][k] == s[i + k];
    }
  }

  /** A character that is not in `needle` cannot complete an occurrence of it. */
  lemma ContainsSnoc(s: string, c: char, needle: string)
    requires needle != [] && !Contains(s, needle) && c !in needle
    ensures !Contains(s + [c], needle)
  {
    NeedleNotInLine(needle, s, [c], []);
    assert s + [c] + [] == s + [c];
  }

  // ---------------------------------------------------------------------------
  // Text-mode decoding
  // ---------------------------------------------------------------------------

  /**
   * What reading a process's output or a file in text mode gives (Python's
   * universal newlines): every `\r\n` and every lone `\r` becomes `\n`.
   */
  function Universal(s: string): (t: string)
    ensures '\r' !in t
    ensures |t| <= |s|
  {
    if s == [] then []
    else if s[0] == '\r' then
      "\n" + Universal(if |s| > 1 && s[1] == '\n' then s[2..] else s[1..])
    else [s[0]] + Universal(s[1..])
  }

  /** Text without carriage returns passes through decoding unchanged. */
  lemma {:induction false} UniversalPlain(a: string, b: string)
    requires '\r' !in a
    ensures Universal(a + b) == a + Universal(b)
  {
    if a != [] {
      assert (a + b)[0] == a[0] && (a + b)[1..] == a[1..] + b;
      UniversalPlain(a[1..], b);
    } else {
      assert a + b == b;
    }
  }

  /** Lines each ended by `\r\n` decode to the same lines each ended by `\n`. */
  lemma {:induction false} UniversalCrlf(lines: seq<string>)
    requires forall k :: 0 <= k < |lines| ==> '\r' !in lines[k]
    ensures Universal(Unlines(CrLines(lines))) == Unlines(lines)
  {
    if lines != [] {
      var rest := Unlines(CrLines(lines[1..]));
      assert CrLines(lines)[0] == lines[0] + "\r";
      assert CrLines(lines)[1..] == CrLines(lines[1..]);
      assert Unlines(CrLines(lines)) == lines[0] + ("\r\n" + rest);
      UniversalPlain(lines[0], "\r\n" + rest);
      assert Universal("\r\n" + rest) == "\n" + Universal(rest);
      UniversalCrlf(lines[1..]);
    }
  }

  /** Each line with a carriage return before its newline, as Windows programs write text. */
  function CrLines(lines: seq<string>): seq<string> {
    seq(|lines|, k requires 0 <= k < |lines| => lines[k] + "\r")
  }
}
