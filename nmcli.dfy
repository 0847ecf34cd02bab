/**
 * Reading NetworkManager's connection list on Linux: the lines of
 * `nmcli -t -f NAME,TYPE connection show` that look wireless, and the name
 * before the first `:` of each. Paired with the terse listing nmcli prints
 * for known connections, and a lemma that reading it gives the names back.
 */
module Nmcli {
  import opened Text
  import opened Records

  /** `'802-11-wireless' in line or 'wifi' in line`: the test looks at the whole line, name included. */
  predicate IsWirelessLine(line: string) {
    Contains(line, "802-11-wireless") || Contains(line, "wifi")
  }

  /** `line.split(':')[0]` of every selected line, in line order. */
  function SelectWireless(lines: seq<string>): (names: seq<string>)
    ensures |names| <= |lines|
    ensures forall k :: 0 <= k < |names| ==> ':' !in names[k]
    ensures (forall k :: 0 <= k < |lines| ==> !IsWirelessLine(lines[k])) <==> names == []
  {
    if lines == [] then []
    else
      var first := if IsWirelessLine(lines[0]) then [Split(lines[0], ':')[0]] else [];
      var names := first + SelectWireless(lines[1..]);
      assert forall k :: 1 <= k < |lines| ==> lines[k] == lines[1..][k - 1];
      names
  }

  /** The connections taken from nmcli's terse listing: `connections.strip().split('\n')`, then the selection. */
  function WirelessConnections(listing: string): (names: seq<string>)
    ensures forall k :: 0 <= k < |names| ==> ':' !in names[k]
  {
    SelectWireless(Split(Strip(listing), '\n'))
  }

  /** The `NAME:TYPE` lines nmcli prints in terse mode. */
  function TerseLines(entries: seq<(string, string)>): (lines: seq<string>)
    ensures |lines| == |entries|
  {
    seq(|entries|, k requires 0 <= k < |entries| => entries[k].0 + ":" + entries[k].1)
  }

  /** The whole terse listing: one `NAME:TYPE` line per connection, each ending with a newline. */
  function NmcliTerse(entries: seq<(string, string)>): string
    requires entries != []
  {
    Join(TerseLines(entries), '\n') + "\n"
  }

  /** The names of the connections whose listing line passes the wireless test, in listing order. */
  function WirelessNames(entries: seq<(string, string)>): seq<string> {
    if entries == [] then []
    else
      (if IsWirelessLine(entries[0].0 + ":" + entries[0].1) then [entries[0].0] else [])
      + WirelessNames(entries[1..])
  }

  lemma {:induction false} JoinFirst(parts: seq<string>, sep: char)
    requires |parts| >= 1 && parts[0] != []
    ensures Join(parts, sep) != [] && Join(parts, sep)[0] == parts[0][0]
  {
  }

  lemma {:induction false} JoinLast(parts: seq<string>, sep: char)
    requires |parts| >= 1 && parts[|parts| - 1] != []
    ensures Join(parts, sep) != []
    ensures Join(parts, sep)[|Join(parts, sep)| - 1] == parts[|parts| - 1][|parts[|parts| - 1]| - 1]
  {
    if |parts| > 1 {
      assert parts[1..][|parts[1..]| - 1] == parts[|parts| - 1];
      JoinLast(parts[1..], sep);
    }
  }

  lemma {:induction false} SelectTerse(entries: seq<(string, string)>)
    requires forall k :: 0 <= k < |entries| ==> ':' !in entries[k].0
    ensures SelectWireless(TerseLines(entries)) == WirelessNames(entries)
  {
    if entries != [] {
      var lines := TerseLines(entries);
      assert lines[1..] == TerseLines(entries[1..]);
      SelectTerse(entries[1..]);
      SplitCons(entries[0].0, ':', entries[0].1);
      assert lines[0] == entries[0].0 + [':'] + entries[0].1;
    }
  }

  /** Stripping the listing leaves its lines joined, for a listing whose first and last characters are not whitespace. */
  lemma TerseStrip(entries: seq<(string, string)>)
    requires entries != []
    requires forall k :: 0 <= k < |entries| ==> entries[k].1 != []
    requires entries[0].0 == [] || !IsSpace(entries[0].0[0])
    requires Trimmed(entries[|entries| - 1].1)
    ensures Strip(NmcliTerse(entries)) == Join(TerseLines(entries), '\n')
  {
    var lines := TerseLines(entries);
    var text := Join(lines, '\n');
    var last := entries[|entries| - 1];
    assert lines[|lines| - 1] == last.0 + ":" + last.1;
    assert lines[0] == entries[0].0 + ":" + entries[0].1;
    JoinFirst(lines, '\n');
    JoinLast(lines, '\n');
    assert Trimmed(text);
    StripAround([], text, "\n");
    assert [] + text + "\n" == NmcliTerse(entries);
  }

  lemma TerseSplit(entries: seq<(string, string)>)
    requires entries != []
    requires forall k :: 0 <= k < |entries| ==> '\n' !in entries[k].0 && '\n' !in entries[k].1
    ensures Split(Join(TerseLines(entries), '\n'), '\n') == TerseLines(entries)
  {
    var lines := TerseLines(entries);
    forall k | 0 <= k < |lines| ensures '\n' !in lines[k] {
      assert lines[k] == entries[k].0 + ":" + entries[k].1;
    }
    SplitJoin(lines, '\n');
  }

  /**
   * nmcli's terse listing read back: the selected names are exactly those
   * whose `NAME:TYPE` line passes the wireless test, in listing order, for
   * names without `:` and a listing without stray whitespace at its ends.
   */
  lemma NmcliRoundTrip(entries: seq<(string, string)>)
    requires entries != []
    requires forall k :: 0 <= k < |entries| ==> ':' !in entries[k].0 && '\n' !in entries[k].0
    requires forall k :: 0 <= k < |entries| ==> entries[k].1 != [] && '\n' !in entries[k].1
    requires entries[0].0 == [] || !IsSpace(entries[0].0[0])
    requires Trimmed(entries[|entries| - 1].1)
    ensures WirelessConnections(NmcliTerse(entries)) == WirelessNames(entries)
  {
    TerseStrip(entries);
    TerseSplit(entries);
    SelectTerse(entries);
  }

  /** Text found in `s` is found in anything built around `s`. */
  lemma ContainsWithin(a: string, s: string, b: string, t: string)
    requires Contains(s, t)
    ensures Contains(a + s + b, t)
  {
    var i :| 0 <= i <= |s| && StartsWith(s[i..], t);
    var w := a + s + b;
    assert w[|a| + i..][..|t|] == s[i..][..|t|];
  }

  /** A connection whose type names `802-11-wireless` is selected, whatever its name. */
  lemma WirelessTypeSelected(name: string, kind: string)
    requires Contains(kind, "802-11-wireless")
    ensures IsWirelessLine(name + ":" + kind)
  {
    ContainsWithin(name + ":", kind, [], "802-11-wireless");
    assert name + ":" + kind + [] == name + ":" + kind;
  }

  /**
   * The test reads the name too: a connection whose name contains lowercase
   * `wifi` is selected whatever its type. The test is case-sensitive, so a
   * name holding only `Wi-Fi` or `WiFi` does not select it.
   */
  lemma WifiNameSelected(name: string, kind: string)
    requires Contains(name, "wifi")
    ensures IsWirelessLine(name + ":" + kind)
  {
    ContainsWithin([], name, ":" + kind, "wifi");
    assert [] + name + (":" + kind) == name + ":" + kind;
  }

  /** A line without a lowercase `w` holds neither needle, so it is not selected. */
  lemma WiredNotSelected(line: string)
    requires 'w' !in line
    ensures !IsWirelessLine(line)
  {
    ContainsNeeds(line, "802-11-wireless", 7);
    ContainsNeeds(line, "wifi", 0);
  }

  /** The wired connection NetworkManager creates by default. */
  const DefaultWired: string := "Wired connection 1:802-3-ethernet"

  /** NetworkManager's default wired connection is not selected. */
  lemma DefaultWiredNotSelected()
    ensures !IsWirelessLine(DefaultWired)
  {
    assert 'w' !in DefaultWired;
    WiredNotSelected(DefaultWired);
  }
}
