/**
 * Reading `netsh wlan show profiles` output on Windows, as the extractor
 * (wifi_extractor.py) and the older script (cek.py) each do it: profile
 * names, the keyless marker and the key. Each reader is paired with the text
 * netsh prints for known names, and a lemma that reading it gives the names
 * back.
 */
module Netsh {
  import opened Text
  import opened Records
  import opened Patterns
  import opened Scanning

  // ---------------------------------------------------------------------------
  // Windows, `netsh wlan show profiles` (wifi_extractor.py)
  // ---------------------------------------------------------------------------

  /** The names in the profile list: every `All User Profile\s+:\s+(.*)` group, stripped, in text order. */
  function ProfileNames(listing: string): (names: seq<string>)
    ensures forall k :: 0 <= k < |names| ==> Trimmed(names[k])
  {
    var caps := FindAll(Regex(Field("All User Profile")), listing);
    seq(|caps|, k requires 0 <= k < |caps| => Strip(caps[k]))
  }

  /** A profile's detail text says it has no key: `Security key\s+:\s+Absent` occurs somewhere. */
  predicate IsKeyless(detail: string) {
    Search(Regex(FieldIs("Security key", "Absent")), detail).Some?
  }

  /** The key in `key=clear` output: the first `Key Content\s+:\s+(.*)` group, stripped, or `None`. */
  function KeyContent(keyText: string): (key: Option<string>)
    ensures key.Some? ==> Trimmed(key.value)
    ensures key.None? <==> Search(Regex(Field("Key Content")), keyText).None?
  {
    match Search(Regex(Field("Key Content")), keyText)
    case None => None
    case Some(c) => Some(Strip(c))
  }

  // ---------------------------------------------------------------------------
  // Windows, the older script (cek.py)
  // ---------------------------------------------------------------------------

  const CekProfilePrefix: string := "All User Profile     : "
  const CekAbsentMarker: string := "Security key           : Absent"
  const CekKeyPrefix: string := "Key Content            : "

  /** Every `All User Profile     : (.*)\r` group, unstripped, in text order. */
  function CekProfileNames(listing: string): (names: seq<string>)
    ensures forall k :: 0 <= k < |names| ==> '\n' !in names[k]
  {
    var caps := FindAll(Regex(CrField(CekProfilePrefix)), listing);
    forall k | 0 <= k < |caps|
      ensures '\n' !in caps[k]
    {
      CrFieldGroupHasNoNewline(CekProfilePrefix, listing, k);
    }
    caps
  }

  lemma CrFieldGroupHasNoNewline(prefix: string, s: string, k: nat)
    requires k < |FindAll(Regex(CrField(prefix)), s)|
    ensures '\n' !in FindAll(Regex(CrField(prefix)), s)[k]
  {
    FindAllSound(Regex(CrField(prefix)), s, k);
  }

  /** The literal text `Security key           : Absent` occurs in the detail text. */
  predicate CekIsKeyless(detail: string) {
    Contains(detail, CekAbsentMarker)
  }

  /** The first `Key Content            : (.*)\r` group, unstripped, or `None`. */
  function CekKeyContent(keyText: string): (key: Option<string>)
    ensures key.Some? ==> '\n' !in key.value
  {
    CrFieldSearchHasNoNewline(CekKeyPrefix, keyText);
    Search(Regex(CrField(CekKeyPrefix)), keyText)
  }

  lemma CrFieldSearchHasNoNewline(prefix: string, s: string)
    ensures Search(Regex(CrField(prefix)), s).Some? ==> '\n' !in Search(Regex(CrField(prefix)), s).value
  {
    var m := Regex(CrField(prefix));
    match FirstMatch(m, s)
    case None =>
    case Some(i) =>
      var t := s[i..];
      assert m(t) == MatchAt(CrField(prefix), t);
      assert MatchAt(CrField(prefix), t) == MatchCrField(prefix, t);
      CrFieldOneLine(prefix, t);
  }

  // ---------------------------------------------------------------------------
  // What netsh prints, and reading it back
  // ---------------------------------------------------------------------------

  /** The tag of each line of `netsh wlan show profiles` that names a profile, and the spaces aligning its colon. */
  const ProfileTag: string := "All User Profile"
  const ProfilePad: string := "     "

  /** The tag of the line of `key=clear` output that holds the key, and the spaces aligning its colon. */
  const KeyTag: string := "Key Content"
  const KeyPad: string := "            "

  /** An item as netsh lays it out: tag, aligned colon, value. */
  function ItemText(tag: string, pad: string, value: string): string {
    tag + pad + ":" + " " + value
  }

  /** One item line, indented. */
  function FieldLine(tag: string, pad: string, value: string): string {
    "    " + ItemText(tag, pad, value)
  }

  /** The profile lines of `netsh wlan show profiles` for these names, in order. */
  function ProfileLines(names: seq<string>): seq<string> {
    seq(|names|, k requires 0 <= k < |names| => FieldLine(ProfileTag, ProfilePad, names[k]))
  }

  /**
   * No line holds an `A`, the letter the profile patterns of both scripts
   * start with: netsh's header and closing lines are like this.
   */
  predicate Untagged(lines: seq<string>) {
    forall k :: 0 <= k < |lines| ==> 'A' !in lines[k]
  }

  /** `netsh wlan show profiles` for these names: lines before, one line per profile, lines after. */
  function ListingLines(header: seq<string>, names: seq<string>, trailer: seq<string>): seq<string> {
    header + ProfileLines(names) + trailer
  }

  /** The lines netsh prints above the profiles of a Wi-Fi interface without group-policy profiles. */
  const NetshHeader: seq<string> := [
    "", InterfaceLine, "", PolicyHeading, PolicyRule, NoPolicyLine, "", UserHeading, UserRule
  ]

  const InterfaceLine: string := "Profiles on interface Wi-Fi:"
  const PolicyHeading: string := "Group policy profiles (read only)"
  const PolicyRule: string := "---------------------------------"
  const NoPolicyLine: string := "    <None>"
  const UserHeading: string := "User profiles"
  const UserRule: string := "-------------"

  /** The blank line netsh prints below the profiles. */
  const NetshTrailer: seq<string> := [""]

  /** `key=clear` output whose only key line, between other lines, holds `key`. */
  function KeyLines(before: seq<string>, key: string, after: seq<string>): seq<string> {
    before + [FieldLine(KeyTag, KeyPad, key)] + after
  }

  /** What netsh writes: every line ended by a carriage return and a newline. */
  function NetshOutput(lines: seq<string>): string {
    Unlines(CrLines(lines))
  }

  /** The line layouts agree with the literal prefixes of the older script. */
  lemma CekPrefixes()
    ensures CekProfilePrefix == ProfileTag + ProfilePad + ":" + " "
    ensures CekKeyPrefix == KeyTag + KeyPad + ":" + " "
  {
  }

  lemma FieldLineNoCr(tag: string, pad: string, value: string)
    requires '\r' !in tag + pad && '\r' !in value
    ensures '\r' !in FieldLine(tag, pad, value)
  {
  }

  /** A pattern for a tag never matches where the text starts with another character. */
  lemma FieldMisses(tag: string)
    requires tag != []
    ensures forall t :: t != [] && t[0] != tag[0] ==> Regex(Field(tag))(t).None?
  {
    forall t: string | t != [] && t[0] != tag[0]
      ensures MatchAt(Field(tag), t).None?
    {
      MismatchAt(t, tag, 0);
    }
  }

  lemma CrFieldMisses(prefix: string)
    requires prefix != []
    ensures forall t :: t != [] && t[0] != prefix[0] ==> Regex(CrField(prefix))(t).None?
  {
    forall t: string | t != [] && t[0] != prefix[0]
      ensures MatchAt(CrField(prefix), t).None?
    {
      MismatchAt(t, prefix, 0);
    }
  }

  /** `tag\s+:\s+(.*)` right at a tag: the group is the value, up to the end of the line. */
  lemma FieldLineMatch(tag: string, pad: string, v: string, tail: string)
    requires pad != [] && AllSpace(pad)
    requires v != [] && !IsSpace(v[0]) && '\n' !in v
    requires tail == [] || tail[0] == '\n'
    ensures Regex(Field(tag))(ItemText(tag, pad, v) + tail) == Some(Match(v, |ItemText(tag, pad, v)|))
  {
    var s := ItemText(tag, pad, v) + tail;
    assert s == tag + pad + ":" + " " + v + tail;
    FieldMatches(tag, pad, " ", v, tail);
    assert MatchAt(Field(tag), s) == Some(Match(v, |ItemText(tag, pad, v)|));
  }

  /** One item line with its newline gives one `tag\s+:\s+(.*)` group: the value. */
  lemma FieldLineYields(tag: string, pad: string, v: string)
    requires tag != [] && !IsSpace(tag[0]) && pad != [] && AllSpace(pad)
    requires v != [] && !IsSpace(v[0]) && '\n' !in v
    ensures Yields(Regex(Field(tag)), FieldLine(tag, pad, v) + "\n", v)
  {
    var m := Regex(Field(tag));
    var hit := ItemText(tag, pad, v);
    FieldMisses(tag);
    forall r
      ensures m(hit + ("\n" + r)) == Some(Match(v, |hit|))
    {
      FieldLineMatch(tag, pad, v, "\n" + r);
    }
    PieceYields(m, tag[0], "    ", hit, v, "\n");
  }

  /**
   * The groups of the profile pattern on the decoded list: exactly the names,
   * in order, whatever header and closing lines surround them.
   */
  lemma ProfileGroups(header: seq<string>, names: seq<string>, trailer: seq<string>)
    requires Untagged(header) && Untagged(trailer)
    requires forall k :: 0 <= k < |names| ==> names[k] != [] && !IsSpace(names[k][0]) && '\n' !in names[k]
    ensures FindAll(Regex(Field(ProfileTag)), Unlines(ListingLines(header, names, trailer))) == names
  {
    var m := Regex(Field(ProfileTag));
    var lines := ProfileLines(names);
    var pieces := seq(|lines|, k requires 0 <= k < |lines| => lines[k] + "\n");
    ProfileLinesYield(names);
    UnlinesPieces(lines);
    ListingText(header, lines, trailer);
    FieldMisses(ProfileTag);
    assert ProfileTag[0] == 'A';
    ScanFramed(m, 'A', Unlines(header), pieces, names, Unlines(trailer));
  }

  /** Each profile line, with its newline, gives its name as the one group of the profile pattern. */
  lemma ProfileLinesYield(names: seq<string>)
    requires forall k :: 0 <= k < |names| ==> names[k] != [] && !IsSpace(names[k][0]) && '\n' !in names[k]
    ensures forall k :: 0 <= k < |names| ==> Yields(Regex(Field(ProfileTag)), ProfileLines(names)[k] + "\n", names[k])
  {
    forall k | 0 <= k < |names|
      ensures Yields(Regex(Field(ProfileTag)), ProfileLines(names)[k] + "\n", names[k])
    {
      FieldLineYields(ProfileTag, ProfilePad, names[k]);
    }
  }

  /** The decoded text of a listing: header, profile lines and closing lines, the first and last without an `A`. */
  lemma ListingText(header: seq<string>, lines: seq<string>, trailer: seq<string>)
    requires Untagged(header) && Untagged(trailer)
    ensures Unlines(header + lines + trailer) == Unlines(header) + (Unlines(lines) + Unlines(trailer))
    ensures 'A' !in Unlines(header) && 'A' !in Unlines(trailer)
  {
    UnlinesThree(header, lines, trailer);
    UnlinesLacks(header, 'A');
    UnlinesLacks(trailer, 'A');
  }

  /**
   * The profile names are read back exactly from the list, in order, for
   * names without surrounding whitespace or line breaks.
   */
  lemma ProfileNamesRoundTrip(header: seq<string>, names: seq<string>, trailer: seq<string>)
    requires Untagged(header) && Untagged(trailer)
    requires forall k :: 0 <= k < |names| ==> names[k] != [] && Trimmed(names[k]) && '\n' !in names[k]
    ensures ProfileNames(Unlines(ListingLines(header, names, trailer))) == names
  {
    ProfileGroups(header, names, trailer);
    forall k | 0 <= k < |names|
      ensures Strip(names[k]) == names[k]
    {
      StripTrimmed(names[k]);
    }
  }

  /** What netsh writes for the names, decoded as text, reads back as the names. */
  lemma ProfileNamesFromNetsh(header: seq<string>, names: seq<string>, trailer: seq<string>)
    requires Untagged(header) && Untagged(trailer)
    requires forall k :: 0 <= k < |header| ==> '\r' !in header[k]
    requires forall k :: 0 <= k < |trailer| ==> '\r' !in trailer[k]
    requires forall k :: 0 <= k < |names| ==> names[k] != [] && Trimmed(names[k]) && '\n' !in names[k] && '\r' !in names[k]
    ensures ProfileNames(Universal(NetshOutput(ListingLines(header, names, trailer)))) == names
  {
    var lines := ListingLines(header, names, trailer);
    forall k | 0 <= k < |lines|
      ensures '\r' !in lines[k]
    {
      if |header| <= k < |header| + |names| {
        FieldLineNoCr(ProfileTag, ProfilePad, names[k - |header|]);
      }
    }
    UniversalCrlf(lines);
    ProfileNamesRoundTrip(header, names, trailer);
  }

  /** A value after a prefix, up to the carriage return that ends its line. */
  function CrText(prefix: string, value: string): string {
    prefix + value + "\r"
  }

  /** `prefix(.*)\r` right at the prefix: the group is the value before the line's last carriage return. */
  lemma CrFieldLineMatch(prefix: string, v: string, tail: string)
    requires '\n' !in v
    requires tail == [] || tail[0] == '\n'
    ensures Regex(CrField(prefix))(CrText(prefix, v) + tail) == Some(Match(v, |CrText(prefix, v)|))
  {
    var s := CrText(prefix, v) + tail;
    assert s == prefix + v + "\r" + tail;
    CrFieldMatches(prefix, v, tail);
    assert MatchAt(CrField(prefix), s) == Some(Match(v, |CrText(prefix, v)|));
  }

  /** One item line with its CRLF gives one `prefix(.*)\r` group: the bare value. */
  lemma CrFieldLineYields(tag: string, pad: string, v: string)
    requires tag != [] && !IsSpace(tag[0])
    requires '\n' !in v
    ensures Yields(Regex(CrField(tag + pad + ":" + " ")), FieldLine(tag, pad, v) + "\r" + "\n", v)
  {
    var prefix := tag + pad + ":" + " ";
    var m := Regex(CrField(prefix));
    var hit := CrText(prefix, v);
    CrFieldMisses(prefix);
    assert prefix[0] == tag[0];
    forall r
      ensures m(hit + ("\n" + r)) == Some(Match(v, |hit|))
    {
      CrFieldLineMatch(prefix, v, "\n" + r);
    }
    PieceYields(m, tag[0], "    ", hit, v, "\n");
    CrLineShape(tag, pad, v);
  }

  lemma CrLineShape(tag: string, pad: string, v: string)
    ensures FieldLine(tag, pad, v) + "\r" + "\n" == "    " + CrText(tag + pad + ":" + " ", v) + "\n"
  {
  }

  /** Each line with its carriage return, for lines written one list after another. */
  lemma CrLinesConcat(a: seq<string>, b: seq<string>)
    ensures CrLines(a + b) == CrLines(a) + CrLines(b)
  {
    assert forall k :: 0 <= k < |a| + |b| ==> CrLines(a + b)[k] == (CrLines(a) + CrLines(b))[k];
  }

  /**
   * The older script reads what netsh writes back exactly, with no stripping
   * and no decoding: its group ends at the line's last carriage return, so
   * only line breaks are excluded from the names. The lines around the
   * profiles give nothing.
   */
  lemma CekProfileNamesRoundTrip(header: seq<string>, names: seq<string>, trailer: seq<string>)
    requires Untagged(header) && Untagged(trailer)
    requires forall k :: 0 <= k < |names| ==> '\n' !in names[k]
    ensures CekProfileNames(NetshOutput(ListingLines(header, names, trailer))) == names
  {
    var m := Regex(CrField(CekProfilePrefix));
    var lines := CrLines(ProfileLines(names));
    var pieces := seq(|lines|, k requires 0 <= k < |lines| => lines[k] + "\n");
    CekPrefixes();
    forall k | 0 <= k < |names|
      ensures Yields(m, pieces[k], names[k])
    {
      CrFieldLineYields(ProfileTag, ProfilePad, names[k]);
      assert pieces[k] == FieldLine(ProfileTag, ProfilePad, names[k]) + "\r" + "\n";
    }
    UnlinesPieces(lines);
    CrListingText(header, ProfileLines(names), trailer);
    CrFieldMisses(CekProfilePrefix);
    ScanFramed(m, 'A', Unlines(CrLines(header)), pieces, names, Unlines(CrLines(trailer)));
  }

  /** netsh's raw text of a listing: header, profile lines and closing lines, the first and last without an `A`. */
  lemma CrListingText(header: seq<string>, lines: seq<string>, trailer: seq<string>)
    requires Untagged(header) && Untagged(trailer)
    ensures NetshOutput(header + lines + trailer)
         == Unlines(CrLines(header)) + (Unlines(CrLines(lines)) + Unlines(CrLines(trailer)))
    ensures 'A' !in Unlines(CrLines(header)) && 'A' !in Unlines(CrLines(trailer))
  {
    CrLinesConcat(header + lines, trailer);
    CrLinesConcat(header, lines);
    UnlinesThree(CrLines(header), CrLines(lines), CrLines(trailer));
    assert Untagged(CrLines(header)) && Untagged(CrLines(trailer));
    UnlinesLacks(CrLines(header), 'A');
    UnlinesLacks(CrLines(trailer), 'A');
  }

  /** The header and closing lines netsh prints carry no tag letter and no carriage return. */
  lemma NetshFrame()
    ensures Untagged(NetshHeader) && Untagged(NetshTrailer)
    ensures forall k :: 0 <= k < |NetshHeader| ==> '\r' !in NetshHeader[k]
    ensures forall k :: 0 <= k < |NetshTrailer| ==> '\r' !in NetshTrailer[k]
  {
    forall k | 0 <= k < |NetshHeader|
      ensures 'A' !in NetshHeader[k] && '\r' !in NetshHeader[k]
    {
      if k == 1 {
        InterfacePlain();
      } else if k == 3 {
        PolicyHeadingPlain();
      } else if k == 4 {
        PolicyRulePlain();
      } else if k == 5 {
        NoPolicyPlain();
      } else if k == 7 {
        UserHeadingPlain();
      } else if k == 8 {
        UserRulePlain();
      }
    }
  }

  lemma InterfacePlain() ensures 'A' !in InterfaceLine && '\r' !in InterfaceLine {}
  lemma PolicyHeadingPlain() ensures 'A' !in PolicyHeading && '\r' !in PolicyHeading {}
  lemma PolicyRulePlain() ensures 'A' !in PolicyRule && '\r' !in PolicyRule {}
  lemma NoPolicyPlain() ensures 'A' !in NoPolicyLine && '\r' !in NoPolicyLine {}
  lemma UserHeadingPlain() ensures 'A' !in UserHeading && '\r' !in UserHeading {}
  lemma UserRulePlain() ensures 'A' !in UserRule && '\r' !in UserRule {}

  /**
   * The listing netsh prints for a Wi-Fi interface, header included, reads
   * back as its profile names in both scripts: stripped and decoded in the
   * extractor, raw in the older script.
   */
  lemma WindowsListingRead(names: seq<string>)
    requires forall k :: 0 <= k < |names| ==> names[k] != [] && Trimmed(names[k]) && '\n' !in names[k] && '\r' !in names[k]
    ensures ProfileNames(Universal(NetshOutput(ListingLines(NetshHeader, names, NetshTrailer)))) == names
    ensures CekProfileNames(NetshOutput(ListingLines(NetshHeader, names, NetshTrailer))) == names
  {
    NetshFrame();
    ProfileNamesFromNetsh(NetshHeader, names, NetshTrailer);
    CekProfileNamesRoundTrip(NetshHeader, names, NetshTrailer);
  }

  /** Four spaces of indentation are passed over by a pattern that cannot start with a space. */
  lemma IndentSkipped(m: Matcher, c: char, rest: string)
    requires c != ' '
    requires forall t :: t != [] && t[0] != c ==> m(t).None?
    ensures Search(m, "    " + rest) == Search(m, rest)
  {
    forall i | 0 <= i < 4
      ensures m(("    " + rest)[i..]).None?
    {
      assert ("    " + rest)[i..][0] == ' ';
    }
    SearchSkip(m, "    ", rest);
  }

  lemma KeyLinesNoCr(before: seq<string>, key: string, after: seq<string>)
    requires forall j :: 0 <= j < |before| ==> '\r' !in before[j]
    requires forall j :: 0 <= j < |after| ==> '\r' !in after[j]
    requires '\r' !in key
    ensures forall j :: 0 <= j < |KeyLines(before, key, after)| ==> '\r' !in KeyLines(before, key, after)[j]
  {
    var lines := KeyLines(before, key, after);
    FieldLineNoCr(KeyTag, KeyPad, key);
    forall j | 0 <= j < |lines|
      ensures '\r' !in lines[j]
    {
      if j < |before| {
        assert lines[j] == before[j];
      } else if j > |before| {
        assert lines[j] == after[j - |before| - 1];
      }
    }
  }

  /** The literals the key lemmas rely on. */
  lemma KeyLiterals()
    ensures KeyPad != [] && AllSpace(KeyPad)
    ensures KeyTag != [] && KeyTag[0] == 'K' && '\n' !in KeyTag
    ensures CekKeyPrefix != [] && CekKeyPrefix[0] == 'K' && '\n' !in CekKeyPrefix && '\r' !in CekKeyPrefix
  {
  }

  /** The `key=clear` lines written with newlines: the lines before, then the key line. */
  lemma KeyLinesText(before: seq<string>, key: string, after: seq<string>)
    ensures Unlines(KeyLines(before, key, after))
            == Unlines(before) + ("    " + (ItemText(KeyTag, KeyPad, key) + ("\n" + Unlines(after))))
  {
    var line := FieldLine(KeyTag, KeyPad, key);
    UnlinesConcat(before + [line], after);
    UnlinesConcat(before, [line]);
    assert Unlines([line]) == line + "\n";
  }

  /** The same lines written with carriage returns, as netsh writes them. */
  lemma KeyLinesOutput(before: seq<string>, key: string, after: seq<string>)
    ensures NetshOutput(KeyLines(before, key, after))
            == Unlines(CrLines(before)) + ("    " + (CrText(CekKeyPrefix, key) + ("\n" + Unlines(CrLines(after)))))
  {
    var line := FieldLine(KeyTag, KeyPad, key);
    CekPrefixes();
    assert CrLines(KeyLines(before, key, after)) == CrLines(before) + [line + "\r"] + CrLines(after);
    UnlinesConcat(CrLines(before) + [line + "\r"], CrLines(after));
    UnlinesConcat(CrLines(before), [line + "\r"]);
    assert Unlines([line + "\r"]) == line + "\r" + "\n";
  }

  /** Lines written with carriage returns still lack what they lacked. */
  lemma CrLinesLack(lines: seq<string>, needle: string)
    requires needle != [] && '\r' !in needle
    requires forall j :: 0 <= j < |lines| ==> !Contains(lines[j], needle)
    ensures forall j :: 0 <= j < |CrLines(lines)| ==> !Contains(CrLines(lines)[j], needle)
  {
    forall j | 0 <= j < |CrLines(lines)|
      ensures !Contains(CrLines(lines)[j], needle)
    {
      ContainsSnoc(lines[j], '\r', needle);
    }
  }

  /** `search` passes over lines that do not hold `needle`, for a pattern anchored at it. */
  lemma PassLines(m: Matcher, needle: string, lines: seq<string>, rest: string)
    requires Anchored(m, [needle])
    requires needle != [] && '\n' !in needle
    requires forall j :: 0 <= j < |lines| ==> !Contains(lines[j], needle)
    ensures Search(m, Unlines(lines) + rest) == Search(m, rest)
  {
    SearchPassesLines(m, [needle], lines, rest);
  }

  /**
   * The key is read from the decoded `key=clear` output: the first line
   * carrying the `Key Content` tag gives it, for a key without surrounding
   * whitespace or line breaks.
   */
  lemma KeyContentFound(before: seq<string>, key: string, after: seq<string>)
    requires forall j :: 0 <= j < |before| ==> !Contains(before[j], KeyTag)
    requires key != [] && Trimmed(key) && '\n' !in key
    ensures KeyContent(Unlines(KeyLines(before, key, after))) == Some(key)
  {
    var m := Regex(Field(KeyTag));
    var hit := ItemText(KeyTag, KeyPad, key);
    var rest := "\n" + Unlines(after);
    KeyLinesText(before, key, after);
    KeyLiterals();
    FieldAnchored(KeyTag);
    PassLines(m, KeyTag, before, "    " + (hit + rest));
    FieldMisses(KeyTag);
    IndentSkipped(m, 'K', hit + rest);
    FieldLineMatch(KeyTag, KeyPad, key, rest);
    SearchFront(m, hit + rest, Match(key, |hit|));
    StripTrimmed(key);
  }

  /** Where no line carries the `Key Content` tag there is no key. */
  lemma KeyContentAbsent(lines: seq<string>)
    requires forall j :: 0 <= j < |lines| ==> !Contains(lines[j], KeyTag)
    ensures KeyContent(Unlines(lines)) == None
  {
    var m := Regex(Field(KeyTag));
    KeyLiterals();
    FieldAnchored(KeyTag);
    PassLines(m, KeyTag, lines, []);
    assert Unlines(lines) + [] == Unlines(lines);
    assert m([]) == MatchField(KeyTag, []);
    assert FirstMatch(m, []) == None;
  }

  /**
   * The older script reads the key from what netsh writes, undecoded: the
   * first `Key Content` line gives it, whatever it holds short of a line
   * break.
   */
  lemma CekKeyContentFound(before: seq<string>, key: string, after: seq<string>)
    requires forall j :: 0 <= j < |before| ==> !Contains(before[j], CekKeyPrefix)
    requires '\n' !in key
    ensures CekKeyContent(NetshOutput(KeyLines(before, key, after))) == Some(key)
  {
    var m := Regex(CrField(CekKeyPrefix));
    var hit := CrText(CekKeyPrefix, key);
    var rest := "\n" + Unlines(CrLines(after));
    KeyLinesOutput(before, key, after);
    KeyLiterals();
    CrLinesLack(before, CekKeyPrefix);
    CrFieldAnchored(CekKeyPrefix);
    PassLines(m, CekKeyPrefix, CrLines(before), "    " + (hit + rest));
    CrFieldMisses(CekKeyPrefix);
    IndentSkipped(m, 'K', hit + rest);
    CrFieldLineMatch(CekKeyPrefix, key, rest);
    SearchFront(m, hit + rest, Match(key, |hit|));
  }

  /** Where no line holds the literal `Key Content            : ` there is no key. */
  lemma CekKeyContentAbsent(lines: seq<string>)
    requires forall j :: 0 <= j < |lines| ==> !Contains(lines[j], CekKeyPrefix)
    ensures CekKeyContent(NetshOutput(lines)) == None
  {
    var m := Regex(CrField(CekKeyPrefix));
    KeyLiterals();
    CrLinesLack(lines, CekKeyPrefix);
    CrFieldAnchored(CekKeyPrefix);
    PassLines(m, CekKeyPrefix, CrLines(lines), []);
    assert NetshOutput(lines) + [] == NetshOutput(lines);
    assert m([]) == MatchCrField(CekKeyPrefix, []);
    assert FirstMatch(m, []) == None;
  }
}
