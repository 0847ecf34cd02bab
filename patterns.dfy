/**
 * The regular expressions of the extractor, each matched as Python's `re`
 * module matches it (greedy quantifiers, with the backtracking each one can
 * do worked out case by case), and the two ways they are applied:
 * `re.search` (the leftmost match) and `re.findall` (every non-overlapping
 * match, left to right). `.` is any character but a newline and `\s` is
 * `Text.IsSpace`.
 */
module Patterns {
  import opened Text
  import opened Records

  datatype Pattern =
    | Field(tag: string)                     // tag\s+:\s+(.*)
    | FieldIs(tag: string, value: string)    // tag\s+:\s+value  (value starts with a non-space)
    | CrField(prefix: string)                // prefix(.*)\r
    | Assign(keys: seq<string>)              // (?:key1|key2|...)=(.+)
    | QuotedSsid                             // SSID_STR\s*=\s*"?([^";]+)"?

  /** A match at the front of a text: the captured group and how many characters the match spans. */
  datatype Match = Match(capture: string, end: nat)

  /** Where `.*` stops: the first newline, or the end of `s`. */
  function LineEnd(s: string): (n: nat)
    ensures n <= |s| && '\n' !in s[..n]
    ensures n == |s| || s[n] == '\n'
  {
    IndexOf(s, '\n')
  }

  /**
   * Where the value begins after `tag\s+:\s+` at the front of `s`. Both
   * whitespace runs are greedy, and neither gives characters back: `:` is
   * not whitespace, and what follows the second run is `(.*)` or a value
   * starting with a non-space.
   */
  function ValueStart(tag: string, s: string): (j: Option<nat>)
    ensures j.Some? ==> |tag| + 3 <= j.value <= |s|
  {
    if !StartsWith(s, tag) then None
    else
      var i := |tag| + SpaceRun(s[|tag|..]);
      if i == |tag| || i == |s| || s[i] != ':' then None
      else
        var j := i + 1 + SpaceRun(s[i + 1..]);
        if j == i + 1 then None else Some(j)
  }

  /** `tag\s+:\s+(.*)`: the group runs from after the spaces to the end of the line. */
  function MatchField(tag: string, s: string): (m: Option<Match>)
    ensures m.Some? ==> 0 < m.value.end <= |s|
  {
    match ValueStart(tag, s)
    case None => None
    case Some(j) =>
      var k := j + LineEnd(s[j..]);
      Some(Match(s[j..k], k))
  }

  /** `tag\s+:\s+value`, for a value that starts with a non-space. */
  function MatchFieldIs(tag: string, value: string, s: string): (m: Option<Match>)
    ensures m.Some? ==> 0 < m.value.end <= |s|
  {
    match ValueStart(tag, s)
    case None => None
    case Some(j) => if StartsWith(s[j..], value) then Some(Match(value, j + |value|)) else None
  }

  /** `prefix(.*)\r`: `.*` runs to the end of the line, then backs off to its last carriage return. */
  function MatchCrField(prefix: string, s: string): (m: Option<Match>)
    ensures m.Some? ==> 0 < m.value.end <= |s|
  {
    if !StartsWith(s, prefix) then None
    else
      var k := |prefix| + LineEnd(s[|prefix|..]);
      var line := s[|prefix|..k];
      var r := LastIndexOf(line, '\r');
      if r == |line| then None else Some(Match(line[..r], |prefix| + r + 1))
  }

  /** The group of `prefix(.*)\r` lies within one line. */
  lemma CrFieldOneLine(prefix: string, s: string)
    ensures MatchCrField(prefix, s).Some? ==> '\n' !in MatchCrField(prefix, s).value.capture
  {
    if StartsWith(s, prefix) {
      var rest := s[|prefix|..];
      var n := LineEnd(rest);
      var line := s[|prefix|..|prefix| + n];
      assert line == rest[..n];
      var r := LastIndexOf(line, '\r');
      if r < |line| {
        assert forall j :: 0 <= j < r ==> line[..r][j] == line[j];
      }
    }
  }

  /** `(?:k1|k2|...)=(.+)`: the alternatives are tried in order at the same position. */
  function MatchAssign(keys: seq<string>, s: string): (m: Option<Match>)
    ensures m.Some? ==> 0 < m.value.end <= |s|
  {
    if keys == [] then None
    else
      var v := |keys[0]| + 1;
      if StartsWith(s, keys[0] + "=") && LineEnd(s[v..]) > 0 then
        var e := v + LineEnd(s[v..]);
        Some(Match(s[v..e], e))
      else
        MatchAssign(keys[1..], s)
  }

  predicate QuoteOrSemi(c: char) {
    c == '"' || c == ';'
  }

  /** Length of the run of characters other than `"` and `;` at the front of `s` (a greedy `[^";]*`). */
  function PlainRun(s: string): (n: nat)
    ensures n <= |s|
    ensures forall i :: 0 <= i < n ==> !QuoteOrSemi(s[i])
    ensures n == |s| || QuoteOrSemi(s[n])
  {
    if s != [] && !QuoteOrSemi(s[0]) then 1 + PlainRun(s[1..]) else 0
  }

  /** The group `s[a..k]`, followed by the optional closing `"?`. */
  function Captured(s: string, a: nat, k: nat): (m: Match)
    requires a <= k <= |s|
    ensures k <= m.end <= |s|
  {
    Match(s[a..k], if k < |s| && s[k] == '"' then k + 1 else k)
  }

  /**
   * `SSID_STR\s*=\s*"?([^";]+)"?`. After the greedy whitespace run, the group
   * starts at the next character unless that is `"` or `;`; after an opening
   * quote it starts one further on. When neither works, `\s*` gives back its
   * last character and the group is that one whitespace character.
   */
  function MatchQuotedSsid(s: string): (m: Option<Match>)
    ensures m.Some? ==> 0 < m.value.end <= |s|
  {
    if !StartsWith(s, "SSID_STR") then None
    else
      var i := 8 + SpaceRun(s[8..]);
      if i == |s| || s[i] != '=' then None
      else
        var j := i + 1 + SpaceRun(s[i + 1..]);
        if j < |s| && !QuoteOrSemi(s[j]) then
          Some(Captured(s, j, j + PlainRun(s[j..])))
        else if j + 1 < |s| && s[j] == '"' && !QuoteOrSemi(s[j + 1]) then
          Some(Captured(s, j + 1, j + 1 + PlainRun(s[j + 1..])))
        else if j > i + 1 then
          Some(Captured(s, j - 1, j))
        else
          None
  }

  /** The match of `p` anchored at the front of `s`, if any; a match always spans at least one character. */
  function MatchAt(p: Pattern, s: string): (m: Option<Match>)
    ensures m.Some? ==> 0 < m.value.end <= |s|
  {
    match p
    case Field(tag) => MatchField(tag, s)
    case FieldIs(tag, value) => MatchFieldIs(tag, value, s)
    case CrField(prefix) => MatchCrField(prefix, s)
    case Assign(keys) => MatchAssign(keys, s)
    case QuotedSsid => MatchQuotedSsid(s)
  }

  /** A compiled regular expression: the match it finds anchored at the front of a text. */
  type Matcher = string -> Option<Match>

  /** Every match spans at least one character, and no more than the text. */
  ghost predicate Progressing(m: Matcher) {
    forall t :: m(t).Some? ==> 0 < m(t).value.end <= |t|
  }

  /** `re.compile(p)`. */
  function Regex(p: Pattern): (m: Matcher)
    ensures Progressing(m)
    ensures forall t :: m(t) == MatchAt(p, t)
  {
    t => MatchAt(p, t)
  }

  /** The leftmost position at which `m` matches. */
  function FirstMatch(m: Matcher, s: string): (r: Option<nat>)
    ensures r.Some? ==> r.value <= |s| && m(s[r.value..]).Some?
    ensures r.Some? ==> forall i :: 0 <= i < r.value ==> m(s[i..]).None?
    ensures r.None? ==> forall i :: 0 <= i <= |s| ==> m(s[i..]).None?
    decreases |s|
  {
    if m(s).Some? then
      assert s[0..] == s;
      Some(0)
    else if s == [] then
      assert forall i :: 0 <= i <= |s| ==> s[i..] == s;
      None
    else
      var r := FirstMatch(m, s[1..]);
      assert forall i :: 1 <= i <= |s| ==> s[i..] == s[1..][i - 1..];
      assert s[0..] == s;
      match r
      case None => None
      case Some(i) => Some(i + 1)
  }

  /** `re.search`: the group of the leftmost match. */
  function Search(m: Matcher, s: string): Option<string> {
    match FirstMatch(m, s)
    case None => None
    case Some(i) => Some(m(s[i..]).value.capture)
  }

  /** `re.findall`: the groups of the matches, scanning on from the end of each match. */
  function FindAll(m: Matcher, s: string): seq<string>
    requires Progressing(m)
    decreases |s|
  {
    match m(s)
    case Some(x) => [x.capture] + FindAll(m, s[x.end..])
    case None => if s == [] then [] else FindAll(m, s[1..])
  }

  /** `findall` finds something exactly when `search` does, and its first group is the one `search` returns. */
  lemma {:induction false} FindAllStartsWithSearch(m: Matcher, s: string)
    requires Progressing(m)
    ensures FindAll(m, s) == [] <==> Search(m, s).None?
    ensures FindAll(m, s) != [] ==> FindAll(m, s)[0] == Search(m, s).value
    decreases |s|
  {
    assert s[0..] == s;
    if m(s).None? && s != [] {
      FindAllStartsWithSearch(m, s[1..]);
      SearchStep(m, s);
    }
  }

  /** Every group `findall` returns is the group of a match at some position of `s`. */
  lemma {:induction false} FindAllSound(m: Matcher, s: string, k: nat)
    requires Progressing(m)
    requires k < |FindAll(m, s)|
    ensures exists i :: 0 <= i <= |s| && m(s[i..]).Some? && m(s[i..]).value.capture == FindAll(m, s)[k]
    decreases |s|
  {
    assert s[0..] == s;
    match m(s)
    case Some(x) =>
      if k > 0 {
        FindAllSound(m, s[x.end..], k - 1);
        var i :| 0 <= i <= |s[x.end..]| && m(s[x.end..][i..]).Some?
                 && m(s[x.end..][i..]).value.capture == FindAll(m, s[x.end..])[k - 1];
        assert s[x.end..][i..] == s[x.end + i..];
      }
    case None =>
      FindAllSound(m, s[1..], k);
      var i :| 0 <= i <= |s[1..]| && m(s[1..][i..]).Some?
               && m(s[1..][i..]).value.capture == FindAll(m, s[1..])[k];
      assert s[1..][i..] == s[1 + i..];
  }

  /** Positions where nothing matches are passed over: `findall` on `a + b` is `findall` on `b`. */
  lemma {:induction false} FindAllSkip(m: Matcher, a: string, b: string)
    requires Progressing(m)
    requires forall i :: 0 <= i < |a| ==> m((a + b)[i..]).None?
    ensures FindAll(m, a + b) == FindAll(m, b)
    decreases |a|
  {
    if a == [] {
      assert a + b == b;
    } else {
      assert (a + b)[0..] == a + b;
      assert (a + b)[1..] == a[1..] + b;
      forall i | 0 <= i < |a[1..]|
        ensures m((a[1..] + b)[i..]).None?
      {
        assert (a[1..] + b)[i..] == (a + b)[i + 1..];
      }
      FindAllSkip(m, a[1..], b);
    }
  }

  /** A match spanning exactly `a` contributes its group, and scanning resumes at `b`. */
  lemma FindAllTake(m: Matcher, a: string, b: string, capture: string)
    requires Progressing(m)
    requires m(a + b) == Some(Match(capture, |a|))
    ensures FindAll(m, a + b) == [capture] + FindAll(m, b)
  {
    assert (a + b)[|a|..] == b;
  }

  /** Where nothing matches at the front, `search` looks on from the next character. */
  lemma SearchStep(m: Matcher, s: string)
    requires s != [] && m(s).None?
    ensures Search(m, s) == Search(m, s[1..])
  {
    match FirstMatch(m, s[1..])
    case None =>
    case Some(i) =>
      assert s[i + 1..] == s[1..][i..];
  }

  /** Positions where nothing matches are passed over by `search` too. */
  lemma {:induction false} SearchSkip(m: Matcher, a: string, b: string)
    requires forall i :: 0 <= i < |a| ==> m((a + b)[i..]).None?
    ensures Search(m, a + b) == Search(m, b)
    decreases |a|
  {
    if a == [] {
      assert a + b == b;
    } else {
      assert (a + b)[0..] == a + b;
      SearchStep(m, a + b);
      assert (a + b)[1..] == a[1..] + b;
      forall i | 0 <= i < |a[1..]|
        ensures m((a[1..] + b)[i..]).None?
      {
        assert (a[1..] + b)[i..] == (a + b)[i + 1..];
      }
      SearchSkip(m, a[1..], b);
    }
  }

  /** A match at the very front is what `search` returns. */
  lemma SearchFront(m: Matcher, s: string, x: Match)
    requires m(s) == Some(x)
    ensures Search(m, s) == Some(x.capture)
  {
    assert s[0..] == s;
  }

  /** `tag\s+:\s+` in front of a value that starts with a non-space: the value starts right after the spaces. */
  lemma ValueStartAt(tag: string, s: string, i: nat, j: nat)
    requires StartsWith(s, tag) && |tag| < i < |s| && s[i] == ':' && i + 1 < j <= |s|
    requires AllSpace(s[|tag|..i]) && AllSpace(s[i + 1..j])
    requires j == |s| || !IsSpace(s[j])
    ensures ValueStart(tag, s) == Some(j)
  {
    var a := s[|tag|..];
    assert a[..i - |tag|] == s[|tag|..i];
    assert a[i - |tag|] == ':' && !IsSpace(':');
    SpaceRunExact(a, i - |tag|);
    var b := s[i + 1..];
    assert b[..j - i - 1] == s[i + 1..j];
    assert j < |s| ==> b[j - i - 1] == s[j];
    SpaceRunExact(b, j - i - 1);
  }

  /** After `tag`, a whitespace run, `:` and another whitespace run, the value starts where the second run ends. */
  lemma FieldValueStart(tag: string, w1: string, w2: string, rest: string)
    requires w1 != [] && AllSpace(w1) && w2 != [] && AllSpace(w2)
    requires rest == [] || !IsSpace(rest[0])
    ensures ValueStart(tag, tag + w1 + ":" + w2 + rest) == Some(|tag| + |w1| + 1 + |w2|)
  {
    var s := tag + w1 + ":" + w2 + rest;
    var i := |tag| + |w1|;
    var j := i + 1 + |w2|;
    assert s[..|tag|] == tag;
    assert s[|tag|..i] == w1;
    assert s[i + 1..j] == w2;
    ValueStartAt(tag, s, i, j);
  }

  /** Where the value starts before a line `v`, the group is `v`. */
  lemma FieldValueTaken(tag: string, s: string, j: nat, v: string, tail: string)
    requires ValueStart(tag, s) == Some(j) && j <= |s| && s[j..] == v + tail
    requires '\n' !in v && (tail == [] || tail[0] == '\n')
    ensures MatchField(tag, s) == Some(Match(v, j + |v|))
  {
    IndexOfBefore(v, '\n', tail);
    assert s[j..j + |v|] == v;
  }

  /**
   * `tag\s+:\s+(.*)` on a `tag : value` line: the group is the value,
   * whatever whitespace surrounds the colon, up to the end of the line.
   */
  lemma FieldMatches(tag: string, w1: string, w2: string, v: string, tail: string)
    requires w1 != [] && AllSpace(w1) && w2 != [] && AllSpace(w2)
    requires v != [] && !IsSpace(v[0]) && '\n' !in v
    requires tail == [] || tail[0] == '\n'
    ensures MatchAt(Field(tag), tag + w1 + ":" + w2 + v + tail)
            == Some(Match(v, |tag| + |w1| + 1 + |w2| + |v|))
  {
    var head := tag + w1 + ":" + w2;
    var s := head + (v + tail);
    assert s == tag + w1 + ":" + w2 + v + tail;
    FieldValueStart(tag, w1, w2, v + tail);
    FieldValueTaken(tag, s, |head|, v, tail);
  }

  /** `tag\s+:\s+value` on a `tag : value...` line. */
  lemma FieldIsMatches(tag: string, w1: string, w2: string, value: string, tail: string)
    requires w1 != [] && AllSpace(w1) && w2 != [] && AllSpace(w2)
    requires value != [] && !IsSpace(value[0])
    ensures MatchAt(FieldIs(tag, value), tag + w1 + ":" + w2 + value + tail)
            == Some(Match(value, |tag| + |w1| + 1 + |w2| + |value|))
  {
    var s := tag + w1 + ":" + w2 + (value + tail);
    assert s == tag + w1 + ":" + w2 + value + tail;
    var j := |tag| + |w1| + 1 + |w2|;
    FieldValueStart(tag, w1, w2, value + tail);
    assert s[j..] == value + tail;
    assert s[j..][..|value|] == value;
  }

  /**
   * `prefix(.*)\r` on a `prefix value\r` line: the group is the value, even
   * when the value itself holds carriage returns, since `.*` backs off only
   * to the last one.
   */
  lemma CrFieldMatches(prefix: string, v: string, tail: string)
    requires '\n' !in v
    requires tail == [] || tail[0] == '\n'
    ensures MatchAt(CrField(prefix), prefix + v + "\r" + tail) == Some(Match(v, |prefix| + |v| + 1))
  {
    var s := prefix + v + "\r" + tail;
    assert s[..|prefix|] == prefix;
    assert s[|prefix|..] == (v + "\r") + tail;
    IndexOfBefore(v + "\r", '\n', tail);
    var line := s[|prefix|..|prefix| + |v| + 1];
    assert line == v + "\r";
    assert line[..|v|] == v;
  }

  /** `key=(.+)` on a `key=value` line, for a value that is not empty. */
  lemma AssignMatches(key: string, v: string, tail: string)
    requires v != [] && '\n' !in v
    requires tail == [] || tail[0] == '\n'
    ensures MatchAt(Assign([key]), key + "=" + v + tail) == Some(Match(v, |key| + 1 + |v|))
  {
    var s := key + "=" + v + tail;
    assert s[..|key + "="|] == key + "=";
    assert s[|key| + 1..] == v + tail;
    IndexOfBefore(v, '\n', tail);
    assert s[|key| + 1..|key| + 1 + |v|] == v;
  }

  /** `SSID_STR = ` in front of a non-space: both whitespace runs are one space long. */
  lemma SsidStrPrefix(after: string)
    requires after != [] && !IsSpace(after[0])
    ensures var s := "SSID_STR = " + after;
            StartsWith(s, "SSID_STR") && SpaceRun(s[8..]) == 1 && s[9] == '='
            && SpaceRun(s[10..]) == 1 && s[11..] == after
  {
    var s := "SSID_STR = " + after;
    assert s == "SSID_STR" + (" " + ("=" + (" " + after)));
    assert s[..8] == "SSID_STR";
    assert s[8..] == " " + ("=" + (" " + after));
    SpaceRunAfter(" ", "=" + (" " + after));
    assert s[10..] == " " + after;
    SpaceRunAfter(" ", after);
  }

  /** With `SSID_STR = ` at the front, a quoted plain value is the group. */
  lemma QuotedValueTaken(s: string, v: string, tail: string)
    requires StartsWith(s, "SSID_STR") && |s| > 11
    requires SpaceRun(s[8..]) == 1 && s[9] == '=' && SpaceRun(s[10..]) == 1
    requires s[11..] == "\"" + (v + ("\"" + tail))
    requires v != [] && forall i :: 0 <= i < |v| ==> !QuoteOrSemi(v[i])
    ensures MatchQuotedSsid(s) == Some(Match(v, 12 + |v| + 1))
  {
    var rest := "\"" + tail;
    assert s[11] == '"';
    assert s[12..] == v + rest;
    PlainRunUntil(v, rest);
    assert s[12..12 + |v|] == v;
    assert s[12 + |v|] == '"';
  }

  /** `SSID_STR\s*=\s*"?([^";]+)"?` on a `SSID_STR = "value";` entry: the group is the quoted value. */
  lemma QuotedSsidMatches(v: string, tail: string)
    requires v != [] && forall i :: 0 <= i < |v| ==> !QuoteOrSemi(v[i])
    ensures MatchQuotedSsid("SSID_STR = \"" + v + "\"" + tail) == Some(Match(v, 12 + |v| + 1))
  {
    var after := "\"" + (v + ("\"" + tail));
    var s := "SSID_STR = " + after;
    assert s == "SSID_STR = \"" + v + "\"" + tail;
    SsidStrPrefix(after);
    QuotedValueTaken(s, v, tail);
  }

  lemma {:induction false} PlainRunUntil(v: string, tail: string)
    requires forall i :: 0 <= i < |v| ==> !QuoteOrSemi(v[i])
    requires tail != [] && QuoteOrSemi(tail[0])
    ensures PlainRun(v + tail) == |v|
  {
    if v == [] {
      assert v + tail == tail;
    } else {
      assert (v + tail)[1..] == v[1..] + tail;
      PlainRunUntil(v[1..], tail);
    }
  }

  /** `SSID_STR\s*=\s*"?([^";]+)"?` on an unquoted `SSID_STR = value;` entry: the group is the value. */
  lemma BareSsidMatches(v: string, tail: string)
    requires v != [] && !IsSpace(v[0]) && forall i :: 0 <= i < |v| ==> !QuoteOrSemi(v[i])
    requires tail != [] && tail[0] == ';'
    ensures MatchQuotedSsid("SSID_STR = " + v + tail) == Some(Match(v, 11 + |v|))
  {
    var s := "SSID_STR = " + (v + tail);
    assert s == "SSID_STR = " + v + tail;
    SsidStrPrefix(v + tail);
    BareValueTaken(s, v, tail);
  }

  /** With `SSID_STR = ` at the front, an unquoted plain value is the group. */
  lemma BareValueTaken(s: string, v: string, tail: string)
    requires StartsWith(s, "SSID_STR") && |s| > 11
    requires SpaceRun(s[8..]) == 1 && s[9] == '=' && SpaceRun(s[10..]) == 1
    requires s[11..] == v + tail
    requires v != [] && forall i :: 0 <= i < |v| ==> !QuoteOrSemi(v[i])
    requires tail != [] && tail[0] == ';'
    ensures MatchQuotedSsid(s) == Some(Match(v, 11 + |v|))
  {
    assert s[11] == v[0];
    PlainRunUntil(v, tail);
    assert s[11..11 + |v|] == v;
    assert s[11 + |v|] == ';';
  }


  // ---------------------------------------------------------------------------
  // Lines a search passes over
  // ---------------------------------------------------------------------------

  /** Every match starts with one of `needles`. */
  ghost predicate Anchored(m: Matcher, needles: seq<string>) {
    forall t :: (forall k :: 0 <= k < |needles| ==> !StartsWith(t, needles[k])) ==> m(t).None?
  }

  /** A match of `tag\s+:\s+(.*)` starts with the tag. */
  lemma FieldAnchored(tag: string)
    ensures Anchored(Regex(Field(tag)), [tag])
  {
    forall t | !StartsWith(t, [tag][0])
      ensures Regex(Field(tag))(t).None?
    {
      assert Regex(Field(tag))(t) == MatchField(tag, t);
    }
  }

  /** A match of `prefix(.*)\r` starts with the prefix. */
  lemma CrFieldAnchored(prefix: string)
    ensures Anchored(Regex(CrField(prefix)), [prefix])
  {
    forall t | !StartsWith(t, [prefix][0])
      ensures Regex(CrField(prefix))(t).None?
    {
      assert Regex(CrField(prefix))(t) == MatchCrField(prefix, t);
    }
  }

  /** A match of `(?:k1|k2|...)=(.+)` starts with one of `k1=`, `k2=`, ... */
  lemma {:induction false} AssignAnchored(keys: seq<string>, t: string)
    requires forall k :: 0 <= k < |keys| ==> !StartsWith(t, keys[k] + "=")
    ensures MatchAssign(keys, t).None?
  {
    if keys != [] {
      AssignAnchored(keys[1..], t);
    }
  }

  /**
   * `search` passes over whole lines in which no anchor of the pattern occurs:
   * it finds what it finds in the text after them.
   */
  lemma {:induction false} SearchPassesLines(m: Matcher, needles: seq<string>, lines: seq<string>, rest: string)
    requires Anchored(m, needles)
    requires forall k :: 0 <= k < |needles| ==> needles[k] != [] && '\n' !in needles[k]
    requires forall j, k :: 0 <= j < |lines| && 0 <= k < |needles| ==> !Contains(lines[j], needles[k])
    ensures Search(m, Unlines(lines) + rest) == Search(m, rest)
  {
    if lines != [] {
      var after := Unlines(lines[1..]) + rest;
      var head := lines[0] + "\n";
      assert Unlines(lines) + rest == head + after;
      forall i | 0 <= i < |head|
        ensures m((head + after)[i..]).None?
      {
        forall k | 0 <= k < |needles|
          ensures !StartsWith((head + after)[i..], needles[k])
        {
          NeedleNotInLine(needles[k], lines[0], "\n", after);
        }
      }
      SearchSkip(m, head, after);
      SearchPassesLines(m, needles, lines[1..], rest);
    } else {
      assert Unlines(lines) + rest == rest;
    }
  }

  /**
   * `findall` passes over whole lines in which no anchor of the pattern
   * occurs: it finds what it finds in the text after them.
   */
  lemma {:induction false} FindAllPassesLines(m: Matcher, needles: seq<string>, lines: seq<string>, rest: string)
    requires Progressing(m) && Anchored(m, needles)
    requires forall k :: 0 <= k < |needles| ==> needles[k] != [] && '\n' !in needles[k]
    requires forall j, k :: 0 <= j < |lines| && 0 <= k < |needles| ==> !Contains(lines[j], needles[k])
    ensures FindAll(m, Unlines(lines) + rest) == FindAll(m, rest)
  {
    if lines != [] {
      var after := Unlines(lines[1..]) + rest;
      var head := lines[0] + "\n";
      assert Unlines(lines) + rest == head + after;
      forall i | 0 <= i < |head|
        ensures m((head + after)[i..]).None?
      {
        forall k | 0 <= k < |needles|
          ensures !StartsWith((head + after)[i..], needles[k])
        {
          NeedleNotInLine(needles[k], lines[0], "\n", after);
        }
      }
      FindAllSkip(m, head, after);
      FindAllPassesLines(m, needles, lines[1..], rest);
    } else {
      assert Unlines(lines) + rest == rest;
    }
  }

  /**
   * `search` finds the match on the first line that holds one of the
   * pattern's anchors, when the lines before it hold none.
   */
  lemma FirstLineFound(m: Matcher, needles: seq<string>, lines: seq<string>, i: nat, x: Match)
    requires Anchored(m, needles)
    requires forall k :: 0 <= k < |needles| ==> needles[k] != [] && '\n' !in needles[k]
    requires i < |lines|
    requires forall n, k :: 0 <= n < i && 0 <= k < |needles| ==> !Contains(lines[n], needles[k])
    requires m(lines[i] + ("\n" + Unlines(lines[i + 1..]))) == Some(x)
    ensures Search(m, Unlines(lines)) == Some(x.capture)
  {
    var rest := lines[i] + ("\n" + Unlines(lines[i + 1..]));
    UnlinesAt(lines, i);
    forall n, k | 0 <= n < |lines[..i]| && 0 <= k < |needles|
      ensures !Contains(lines[..i][n], needles[k])
    {
      assert lines[..i][n] == lines[n];
    }
    SearchPassesLines(m, needles, lines[..i], rest);
    SearchFront(m, rest, x);
  }

  /** `search` finds nothing in lines none of which holds an anchor of the pattern. */
  lemma NoLineFound(m: Matcher, needles: seq<string>, lines: seq<string>)
    requires Anchored(m, needles) && m([]).None?
    requires forall k :: 0 <= k < |needles| ==> needles[k] != [] && '\n' !in needles[k]
    requires forall j, k :: 0 <= j < |lines| && 0 <= k < |needles| ==> !Contains(lines[j], needles[k])
    ensures Search(m, Unlines(lines)).None?
  {
    SearchPassesLines(m, needles, lines, []);
    assert Unlines(lines) + [] == Unlines(lines);
    assert FirstMatch(m, []) == None;
  }

  /** `NoLineFound` for a pattern with a single anchor. */
  lemma NoLineFoundOne(m: Matcher, needle: string, lines: seq<string>)
    requires Anchored(m, [needle]) && m([]).None?
    requires needle != [] && '\n' !in needle
    requires forall j :: 0 <= j < |lines| ==> !Contains(lines[j], needle)
    ensures Search(m, Unlines(lines)).None?
  {
    NoLineFound(m, [needle], lines);
  }
}
