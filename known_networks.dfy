/**
 * Reading the macOS list of preferred networks: every
 * `SSID_STR\s*=\s*"?([^";]+)"?` group of the `defaults read ... KnownNetworks`
 * dump. Paired with a model of that dump (one dictionary per network, whose
 * `SSID_STR = "<name>";` or `SSID_STR = <name>;` line sits among other keys),
 * and a lemma that reading it gives the names back, in order and with
 * repetitions.
 */
module KnownNetworks {
  import opened Text
  import opened Records
  import opened Patterns
  import opened Scanning

  /** Every `SSID_STR\s*=\s*"?([^";]+)"?` group of the preferences dump, in text order, duplicates kept. */
  function KnownSsids(prefs: string): (ssids: seq<string>)
    ensures forall k :: 0 <= k < |ssids| ==>
              exists i :: 0 <= i <= |prefs| && MatchQuotedSsid(prefs[i..]).Some?
                          && MatchQuotedSsid(prefs[i..]).value.capture == ssids[k]
  {
    var m := Regex(QuotedSsid);
    var ssids := FindAll(m, prefs);
    forall k | 0 <= k < |ssids|
      ensures exists i :: 0 <= i <= |prefs| && MatchQuotedSsid(prefs[i..]).Some?
                          && MatchQuotedSsid(prefs[i..]).value.capture == ssids[k]
    {
      FindAllSound(m, prefs, k);
      var i :| 0 <= i <= |prefs| && m(prefs[i..]).Some? && m(prefs[i..]).value.capture == ssids[k];
      assert m(prefs[i..]) == MatchAt(QuotedSsid, prefs[i..]) == MatchQuotedSsid(prefs[i..]);
    }
    ssids
  }

  /**
   * One preferred network as `defaults` prints it: its SSID, in quotes when
   * the name needs them (`SSID_STR = "My Net";`) and bare otherwise
   * (`SSID_STR = MyNet;`).
   */
  datatype Entry = Entry(ssid: string, quoted: bool)

  /** The quoted `SSID_STR = "<ssid>"` part of an entry. */
  function QuotedEntry(ssid: string): string {
    "SSID_STR = \"" + ssid + "\""
  }

  /** The unquoted `SSID_STR = <ssid>` part of an entry. */
  function BareEntry(ssid: string): string {
    "SSID_STR = " + ssid
  }

  /** The `SSID_STR = ...` part of an entry, quoted or bare. */
  function Assignment(e: Entry): string {
    if e.quoted then QuotedEntry(e.ssid) else BareEntry(e.ssid)
  }

  /** The `SSID_STR = ...;` line of an entry, after its indentation. */
  function SsidLine(indent: string, e: Entry): string {
    indent + Assignment(e) + ";"
  }

  /**
   * One network's dictionary in the dump: the lines above its `SSID_STR`
   * line (the `"wifi.ssid.<...>" =     {` line and the keys sorted before
   * `SSID_STR`), that line's indentation and entry, and the lines below it
   * (the keys sorted after it and the closing `};`).
   */
  datatype Network = Network(above: seq<string>, indent: string, entry: Entry, below: seq<string>)

  /** The lines of one network's dictionary. */
  function NetworkLines(n: Network): seq<string> {
    n.above + [SsidLine(n.indent, n.entry)] + n.below
  }

  /**
   * The dump for these networks: the lines before the first dictionary
   * (the opening `{`), each network's lines, and the lines after the last
   * one (the closing `}`).
   */
  function KnownNetworksDump(header: seq<string>, networks: seq<Network>, trailer: seq<string>): string {
    Unlines(header)
    + Concat(seq(|networks|, k requires 0 <= k < |networks| => Unlines(NetworkLines(networks[k]))))
    + Unlines(trailer)
  }

  /** The SSIDs of the networks, in order. */
  function Ssids(networks: seq<Network>): (names: seq<string>)
    ensures |names| == |networks| && forall k :: 0 <= k < |networks| ==> names[k] == networks[k].entry.ssid
  {
    seq(|networks|, k requires 0 <= k < |networks| => networks[k].entry.ssid)
  }

  /** Lines where the pattern cannot start: none holds `SSID_STR`. */
  predicate Unkeyed(lines: seq<string>) {
    forall k :: 0 <= k < |lines| ==> !Contains(lines[k], "SSID_STR")
  }

  /** A name `[^";]+` can take whole. */
  predicate PlainName(ssid: string) {
    ssid != [] && forall i :: 0 <= i < |ssid| ==> !QuoteOrSemi(ssid[i])
  }

  /** An entry whose SSID reads back whole: a plain name, which, when bare, does not start with whitespace. */
  predicate Readable(e: Entry) {
    PlainName(e.ssid) && (e.quoted || !IsSpace(e.ssid[0]))
  }

  /**
   * A network whose SSID reads back whole: a readable entry, an indentation
   * without `S`, and no `SSID_STR` on the other lines of its dictionary.
   */
  predicate Listed(n: Network) {
    Readable(n.entry) && 'S' !in n.indent && Unkeyed(n.above) && Unkeyed(n.below)
  }

  /** The pattern cannot match at a position that does not hold the `S` of `SSID_STR`. */
  lemma QuotedSsidMisses()
    ensures forall t :: t != [] && t[0] != 'S' ==> Regex(QuotedSsid)(t).None?
  {
    forall t: string | t != [] && t[0] != 'S'
      ensures MatchQuotedSsid(t).None?
    {
      assert !StartsWith(t, "SSID_STR") by { if 8 <= |t| { assert t[..8][0] != 'S'; } }
    }
  }

  /** A match of the pattern starts with `SSID_STR`. */
  lemma QuotedSsidAnchored()
    ensures Anchored(Regex(QuotedSsid), ["SSID_STR"])
  {
    forall t | !StartsWith(t, ["SSID_STR"][0])
      ensures Regex(QuotedSsid)(t).None?
    {
      assert Regex(QuotedSsid)(t) == MatchAt(QuotedSsid, t) == MatchQuotedSsid(t);
    }
  }

  /** Lines without `SSID_STR` contribute nothing to `findall`, whatever follows them. */
  lemma UnkeyedPassed(lines: seq<string>, rest: string)
    requires Unkeyed(lines)
    ensures FindAll(Regex(QuotedSsid), Unlines(lines) + rest) == FindAll(Regex(QuotedSsid), rest)
  {
    QuotedSsidAnchored();
    FindAllPassesLines(Regex(QuotedSsid), ["SSID_STR"], lines, rest);
  }

  /** One entry's line contributes its name to `findall`, and the scan carries on after the line. */
  lemma EntryYields(indent: string, e: Entry)
    requires Readable(e) && 'S' !in indent
    ensures Yields(Regex(QuotedSsid), SsidLine(indent, e) + "\n", e.ssid)
  {
    var m := Regex(QuotedSsid);
    var hit := Assignment(e);
    forall r
      ensures m(hit + (";\n" + r)) == Some(Match(e.ssid, |hit|))
    {
      if e.quoted {
        EntryMatches(e.ssid, r);
      } else {
        BareEntryMatches(e.ssid, r);
      }
    }
    QuotedSsidMisses();
    assert 'S' !in ";\n";
    PieceYields(m, 'S', indent, hit, e.ssid, ";\n");
    assert SsidLine(indent, e) + "\n" == indent + hit + ";\n";
  }

  /**
   * One network's dictionary contributes its SSID to `findall`, and the
   * scan carries on after the dictionary.
   */
  lemma NetworkYields(n: Network)
    requires Listed(n)
    ensures Yields(Regex(QuotedSsid), Unlines(NetworkLines(n)), n.entry.ssid)
  {
    var m := Regex(QuotedSsid);
    var line := SsidLine(n.indent, n.entry) + "\n";
    EntryYields(n.indent, n.entry);
    NetworkText(n);
    forall r
      ensures FindAll(m, Unlines(NetworkLines(n)) + r) == [n.entry.ssid] + FindAll(m, r)
    {
      var tail := Unlines(n.below) + r;
      Regroup(Unlines(n.above), line + Unlines(n.below), r);
      Regroup(line, Unlines(n.below), r);
      UnkeyedPassed(n.above, line + tail);
      UnkeyedPassed(n.below, r);
    }
  }

  /** A network's text: the lines above, the `SSID_STR` line, the lines below. */
  lemma NetworkText(n: Network)
    ensures Unlines(NetworkLines(n)) == Unlines(n.above) + ((SsidLine(n.indent, n.entry) + "\n") + Unlines(n.below))
  {
    UnlinesThree(n.above, [SsidLine(n.indent, n.entry)], n.below);
    assert Unlines([SsidLine(n.indent, n.entry)]) == SsidLine(n.indent, n.entry) + "\n";
  }

  /** The pattern matches a quoted entry through its closing quote, whatever follows it. */
  lemma EntryMatches(ssid: string, r: string)
    requires PlainName(ssid)
    ensures Regex(QuotedSsid)(QuotedEntry(ssid) + (";\n" + r)) == Some(Match(ssid, |QuotedEntry(ssid)|))
  {
    var x := QuotedEntry(ssid) + (";\n" + r);
    assert x == "SSID_STR = \"" + ssid + "\"" + (";\n" + r);
    QuotedSsidMatches(ssid, ";\n" + r);
    assert |QuotedEntry(ssid)| == 12 + |ssid| + 1;
    assert MatchAt(QuotedSsid, x) == MatchQuotedSsid(x);
    assert Regex(QuotedSsid)(x) == MatchAt(QuotedSsid, x);
  }

  /** The pattern matches a bare entry up to the `;` that ends it. */
  lemma BareEntryMatches(ssid: string, r: string)
    requires PlainName(ssid) && !IsSpace(ssid[0])
    ensures Regex(QuotedSsid)(BareEntry(ssid) + (";\n" + r)) == Some(Match(ssid, |BareEntry(ssid)|))
  {
    var x := BareEntry(ssid) + (";\n" + r);
    assert x == "SSID_STR = " + ssid + (";\n" + r);
    BareSsidMatches(ssid, ";\n" + r);
    assert |BareEntry(ssid)| == 11 + |ssid|;
    assert MatchAt(QuotedSsid, x) == MatchQuotedSsid(x);
    assert Regex(QuotedSsid)(x) == MatchAt(QuotedSsid, x);
  }

  /**
   * The SSIDs are read back from the dump exactly, in order and with their
   * repetitions, for names without `"` or `;`, quoted or bare, whatever
   * other keys and braces the dump holds on lines without `SSID_STR`.
   */
  lemma KnownSsidsRoundTrip(header: seq<string>, networks: seq<Network>, trailer: seq<string>)
    requires Unkeyed(header) && Unkeyed(trailer)
    requires forall k :: 0 <= k < |networks| ==> Listed(networks[k])
    ensures KnownSsids(KnownNetworksDump(header, networks, trailer)) == Ssids(networks)
  {
    var m := Regex(QuotedSsid);
    var pieces := seq(|networks|, k requires 0 <= k < |networks| => Unlines(NetworkLines(networks[k])));
    var names := Ssids(networks);
    forall k | 0 <= k < |pieces|
      ensures Yields(m, pieces[k], names[k])
    {
      NetworkYields(networks[k]);
    }
    var tail := Unlines(trailer);
    Regroup(Unlines(header), Concat(pieces), tail);
    UnkeyedPassed(header, Concat(pieces) + tail);
    ScanPiecesThen(m, pieces, names, tail);
    UnkeyedPassed(trailer, []);
    assert tail + [] == tail;
    assert FindAll(m, []) == [] by { FindAllStartsWithSearch(m, []); }
    assert names + [] == names;
  }

  /** A network listed twice is read twice; only the set taken later makes it one network. */
  lemma RepeatedSsidCollapses(n: Network)
    requires Listed(n)
    ensures KnownSsids(KnownNetworksDump([], [n, n], [])) == [n.entry.ssid, n.entry.ssid]
    ensures (set s | s in KnownSsids(KnownNetworksDump([], [n, n], []))) == {n.entry.ssid}
  {
    PairListed(n);
    KnownSsidsRoundTrip([], [n, n], []);
    PairSet(n.entry.ssid);
  }

  /** Two copies of one network: both listed, and their SSIDs are two copies of its SSID. */
  lemma PairListed(n: Network)
    requires Listed(n)
    ensures forall k :: 0 <= k < |[n, n]| ==> Listed([n, n][k])
    ensures Ssids([n, n]) == [n.entry.ssid, n.entry.ssid]
  {
  }

  /** The set of a sequence holding one name twice. */
  lemma PairSet(s: string)
    ensures (set x | x in [s, s]) == {s}
  {
  }

  /** The SSID as the `SSIDString` key shows it: in quotes when the entry is quoted. */
  function Shown(e: Entry): string {
    if e.quoted then "\"" + e.ssid + "\"" else e.ssid
  }

  /**
   * The dictionary `defaults` prints for a WPA2 network stored under the
   * hex key `hex`: its `"wifi.ssid.<hex>"` line, the keys sorted before
   * `SSID_STR` (`AutoLogin`, `Captive`, `LastConnected`, `SSID`,
   * `SSIDString`), the `SSID_STR` line, then `SecurityType`, `SystemMode`
   * and the closing `};`.
   */
  function AirportNetwork(hex: string, e: Entry): Network {
    Network(
      [WifiKeyLine(hex), AutoLoginLine, CaptiveLine, LastConnectedLine,
       HexLine(hex), SsidStringLine(e)],
      "        ", e,
      [SecurityTypeLine, SystemModeLine, CloseLine])
  }

  /** The line that opens a network's dictionary. */
  function WifiKeyLine(hex: string): string {
    "    \"wifi.ssid.<" + hex + ">\" =     {"
  }

  /** The `SSID` key: the name's bytes in hex. */
  function HexLine(hex: string): string {
    "        SSID = <" + hex + ">;"
  }

  /** The `SSIDString` key: the name as text. */
  function SsidStringLine(e: Entry): string {
    "        SSIDString = " + Shown(e) + ";"
  }

  const AutoLoginLine := "        AutoLogin = 1;"
  const CaptiveLine := "        Captive = 0;"
  const LastConnectedLine := LastConnectedKey + LastConnectedDate
  const LastConnectedKey := "        LastConnected = "
  const LastConnectedDate := "\"2024-05-01 09:30:00 +0000\";"
  const SecurityTypeLine := "        SecurityType = \"WPA2 Personal\";"
  const SystemModeLine := "        SystemMode = 1;"
  const CloseLine := "    };"

  // The literal lines of such a dictionary hold no `_`, one line at a time.
  lemma AutoLoginPlain() ensures '_' !in AutoLoginLine {}
  lemma CaptivePlain() ensures '_' !in CaptiveLine {}
  lemma LastConnectedKeyPlain() ensures '_' !in LastConnectedKey {}
  lemma LastConnectedDatePlain() ensures '_' !in LastConnectedDate {}

  lemma LastConnectedPlain()
    ensures '_' !in LastConnectedLine
  {
    LastConnectedKeyPlain();
    LastConnectedDatePlain();
  }
  lemma SecurityTypePlain() ensures '_' !in SecurityTypeLine {}
  lemma SystemModePlain() ensures '_' !in SystemModeLine {}
  lemma ClosePlain() ensures '_' !in CloseLine {}
  lemma WifiKeyPlain(hex: string) requires '_' !in hex ensures '_' !in WifiKeyLine(hex) {}
  lemma HexPlain(hex: string) requires '_' !in hex ensures '_' !in HexLine(hex) {}
  lemma SsidStringPlain(e: Entry) requires '_' !in e.ssid ensures '_' !in SsidStringLine(e) {}
  lemma BracesPlain() ensures '_' !in "{" && '_' !in "}" {}

  /** Lines without `_` cannot hold `SSID_STR`. */
  lemma UnderscorelessUnkeyed(lines: seq<string>)
    requires forall k :: 0 <= k < |lines| ==> '_' !in lines[k]
    ensures Unkeyed(lines)
  {
    forall k | 0 <= k < |lines|
      ensures !Contains(lines[k], "SSID_STR")
    {
      ContainsNeeds(lines[k], "SSID_STR", 4);
    }
  }

  /** Such a dictionary is listed when the key and the SSID hold no `_`. */
  lemma AirportNetworkListed(hex: string, e: Entry)
    requires Readable(e) && '_' !in hex && '_' !in e.ssid
    ensures Listed(AirportNetwork(hex, e))
  {
    AirportAboveUnkeyed(hex, e);
    AirportBelowUnkeyed(hex, e);
  }

  /** The lines above the `SSID_STR` line hold no `_`, so no `SSID_STR`. */
  lemma AirportAboveUnkeyed(hex: string, e: Entry)
    requires '_' !in hex && '_' !in e.ssid
    ensures Unkeyed(AirportNetwork(hex, e).above)
  {
    var above := AirportNetwork(hex, e).above;
    forall k | 0 <= k < |above|
      ensures '_' !in above[k]
    {
      if k == 0 {
        WifiKeyPlain(hex);
      } else if k == 1 {
        AutoLoginPlain();
      } else if k == 2 {
        CaptivePlain();
      } else if k == 3 {
        LastConnectedPlain();
      } else if k == 4 {
        HexPlain(hex);
      } else {
        SsidStringPlain(e);
      }
    }
    UnderscorelessUnkeyed(above);
  }

  /** The lines below the `SSID_STR` line hold no `_`, so no `SSID_STR`. */
  lemma AirportBelowUnkeyed(hex: string, e: Entry)
    ensures Unkeyed(AirportNetwork(hex, e).below)
  {
    var below := AirportNetwork(hex, e).below;
    forall k | 0 <= k < |below|
      ensures '_' !in below[k]
    {
      if k == 0 {
        SecurityTypePlain();
      } else if k == 1 {
        SystemModePlain();
      } else {
        ClosePlain();
      }
    }
    UnderscorelessUnkeyed(below);
  }

  /** One such dictionary per network, each under its hex key. */
  function AirportNetworks(hexes: seq<string>, entries: seq<Entry>): (networks: seq<Network>)
    requires |hexes| == |entries|
    ensures |networks| == |entries|
    ensures forall k :: 0 <= k < |entries| ==> networks[k] == AirportNetwork(hexes[k], entries[k])
  {
    seq(|entries|, k requires 0 <= k < |entries| => AirportNetwork(hexes[k], entries[k]))
  }

  /**
   * The dump `defaults` prints for these networks, `{`, one dictionary per
   * network, `}`, reads back as their SSIDs, in order.
   */
  lemma AirportDumpRead(hexes: seq<string>, entries: seq<Entry>)
    requires |hexes| == |entries|
    requires forall k :: 0 <= k < |entries| ==> Readable(entries[k]) && '_' !in hexes[k] && '_' !in entries[k].ssid
    ensures KnownSsids(KnownNetworksDump(["{"], AirportNetworks(hexes, entries), ["}"]))
            == seq(|entries|, k requires 0 <= k < |entries| => entries[k].ssid)
  {
    var networks := AirportNetworks(hexes, entries);
    AirportNetworksListed(hexes, entries);
    BracesUnkeyed();
    KnownSsidsRoundTrip(["{"], networks, ["}"]);
    AirportSsids(hexes, entries);
  }

  /** Every such dictionary is listed. */
  lemma AirportNetworksListed(hexes: seq<string>, entries: seq<Entry>)
    requires |hexes| == |entries|
    requires forall k :: 0 <= k < |entries| ==> Readable(entries[k]) && '_' !in hexes[k] && '_' !in entries[k].ssid
    ensures forall k :: 0 <= k < |entries| ==> Listed(AirportNetworks(hexes, entries)[k])
  {
    forall k | 0 <= k < |entries|
      ensures Listed(AirportNetworks(hexes, entries)[k])
    {
      AirportNetworkListed(hexes[k], entries[k]);
    }
  }

  /** The SSIDs of such dictionaries are those of the entries. */
  lemma AirportSsids(hexes: seq<string>, entries: seq<Entry>)
    requires |hexes| == |entries|
    ensures Ssids(AirportNetworks(hexes, entries)) == seq(|entries|, k requires 0 <= k < |entries| => entries[k].ssid)
  {
  }

  /** The braces around the dictionaries hold no `SSID_STR`. */
  lemma BracesUnkeyed()
    ensures Unkeyed(["{"]) && Unkeyed(["}"])
  {
    BracesPlain();
    UnderscorelessUnkeyed(["{"]);
    UnderscorelessUnkeyed(["}"]);
  }

  /**
   * `SSID_STR = "";` still yields a group: the whitespace run before the
   * quote gives back its one space, which `[^";]+` then takes.
   */
  lemma EmptyQuotedSsidCapturesSpace(tail: string)
    requires tail == [] || QuoteOrSemi(tail[0])
    ensures MatchQuotedSsid(QuotedEntry([]) + tail) == Some(Match(" ", 12))
  {
    var after := "\"\"" + tail;
    var s := "SSID_STR = " + after;
    assert QuotedEntry([]) + tail == s;
    SsidStrPrefix(after);
    EmptyQuotesCaptureSpace(s);
  }

  /** After `SSID_STR = `, two quotes leave only the space before them to capture. */
  lemma EmptyQuotesCaptureSpace(s: string)
    requires StartsWith(s, "SSID_STR") && |s| > 12
    requires SpaceRun(s[8..]) == 1 && s[9] == '=' && SpaceRun(s[10..]) == 1
    requires s[10] == ' ' && s[11] == '"' && s[12] == '"'
    ensures MatchQuotedSsid(s) == Some(Match(" ", 12))
  {
    assert s[10..11] == [s[10]];
  }
}
