/**
 * The text the extractor writes: the `wifi.txt` export of `save_to_file`,
 * the console listing of `display_results`, and the report `cek.py` writes.
 * All three list each credential on two numbered lines and a blank one; a
 * reader of that shape gives the numbers, names and shown passwords back.
 */
module Report {
  import opened Text
  import opened Records

  predicate IsDigit(c: char) {
    '0' <= c <= '9'
  }

  predicate AllDigits(s: string) {
    forall i :: 0 <= i < |s| ==> IsDigit(s[i])
  }

  function Digit(d: nat): (c: char)
    requires d < 10
    ensures IsDigit(c) && c as int - '0' as int == d
  {
    (48 + d) as char
  }

  /** Python's `str(n)` for a natural number: its decimal digits, no leading zero. */
  function Decimal(n: nat): (s: string)
    ensures s != [] && AllDigits(s)
    ensures |s| == 1 <==> n < 10
    ensures |s| > 1 ==> s[0] != '0'
  {
    if n < 10 then [Digit(n)] else Decimal(n / 10) + [Digit(n % 10)]
  }

  function DigitValue(c: char): nat {
    if IsDigit(c) then c as int - '0' as int else 0
  }

  /** `int(s)` for a string of digits. */
  function ParseDecimal(s: string): nat {
    if s == [] then 0 else 10 * ParseDecimal(s[..|s| - 1]) + DigitValue(s[|s| - 1])
  }

  /** Reading the digits of `str(n)` gives `n`. */
  lemma {:induction false} DecimalRoundTrip(n: nat)
    ensures ParseDecimal(Decimal(n)) == n
  {
    var s := Decimal(n);
    if n < 10 {
      assert s[..0] == [];
    } else {
      DecimalRoundTrip(n / 10);
      assert s[..|s| - 1] == Decimal(n / 10);
    }
  }

  /**
   * `f"{n:02d}"`: at least two digits, zero-padded. `cek.py` pads by hand
   * (`0` before numbers below 10), which for its positive numbers is the
   * same text.
   */
  function Pad2(n: nat): string {
    if n < 10 then "0" + Decimal(n) else Decimal(n)
  }

  /** The padded number has at least two digits and reads back as `n`. */
  lemma Pad2RoundTrip(n: nat)
    ensures |Pad2(n)| >= 2 && AllDigits(Pad2(n))
    ensures ParseDecimal(Pad2(n)) == n
  {
    DecimalRoundTrip(n);
    if n < 10 {
      var s := Pad2(n);
      assert s[..1] == "0" && s[..1][..0] == [];
    }
  }

  /** `password or 'N/A'`: the password, or `N/A` when there is none or it is empty. */
  function ShownPassword(p: Option<string>): (s: string)
    ensures s != []
    ensures p.Some? && p.value != [] ==> s == p.value
    ensures p.None? || p.value == [] ==> s == "N/A"
  {
    if p.Some? && p.value != [] then p.value else "N/A"
  }

  /** `f"{password}"` in `cek.py`: a missing password prints as `None`. */
  function CekShownPassword(p: Option<string>): (s: string)
    ensures p.Some? ==> s == p.value
    ensures p.None? ==> s == "None"
  {
    if p.Some? then p.value else "None"
  }

  /** `"=" * n`, `" " * n`. */
  function Rule(c: char, n: nat): (s: string)
    ensures |s| == n && forall i :: 0 <= i < n ==> s[i] == c
  {
    seq(n, _ => c)
  }

  /** The three listings: the export file, the console, and `cek.py`'s file. */
  datatype Layout = Export | Display | Cek

  /** The text before the `: ` of an entry's first line, numbered `n`. */
  function NameLead(layout: Layout, n: nat): string {
    match layout
    case Export => "[" + Pad2(n) + "] WiFi Name "
    case Display => "[" + Pad2(n) + "] SSID     "
    case Cek => "[" + Pad2(n) + "] Wifi Name "
  }

  /** The text before the `: ` of an entry's second line. */
  function PasswordLead(layout: Layout, n: nat): string {
    match layout
    case Export => "[" + Pad2(n) + "] Password  "
    case Display => "     Password "
    case Cek => "[" + Pad2(n) + "] Password  "
  }

  function Shown(layout: Layout, p: Option<string>): string {
    if layout.Cek? then CekShownPassword(p) else ShownPassword(p)
  }

  /** The lines of the `n`-th entry: name, password, blank. */
  function EntryLines(layout: Layout, n: nat, c: Credential): (lines: seq<string>)
    ensures |lines| == 3
  {
    [NameLead(layout, n) + ": " + c.ssid, PasswordLead(layout, n) + ": " + Shown(layout, c.password), ""]
  }

  /** The entries of `list`, numbered from 1. */
  function BlockLines(layout: Layout, list: seq<Credential>): (lines: seq<string>)
    ensures |lines| == 3 * |list|
  {
    if list == [] then []
    else BlockLines(layout, list[..|list| - 1]) + EntryLines(layout, |list|, list[|list| - 1])
  }

  /** The lines of the export header for a platform. */
  function ExportHeader(system: string): seq<string> {
    [Rule('=', 70), Rule(' ', 20) + "WiFi Credentials Export", Rule(' ', 22) + "Platform: " + system, Rule('=', 70), ""]
  }

  /** The lines `save_to_file` writes. */
  function ExportLines(system: string, list: seq<Credential>): seq<string> {
    ExportHeader(system) + BlockLines(Export, list)
  }

  /** The content of the export file. */
  function ExportText(system: string, list: seq<Credential>): string {
    Unlines(ExportLines(system, list))
  }

  /** The lines `display_results` prints before the entries of a non-empty list. */
  function DisplayHeader(count: nat): seq<string> {
    ["", Rule('=', 70), " Found " + Decimal(count) + " WiFi Credential(s)", Rule('=', 70), ""]
  }

  /** Everything `display_results` prints. */
  function DisplayLines(list: seq<Credential>): seq<string> {
    if list == [] then ["", "[!] No WiFi credentials found."]
    else DisplayHeader(|list|) + BlockLines(Display, list)
  }

  function DisplayText(list: seq<Credential>): string {
    Unlines(DisplayLines(list))
  }

  /** The text `cek.py` writes to `wifi.txt`: the entries alone, without a header. */
  function CekText(list: seq<Credential>): string {
    Unlines(BlockLines(Cek, list))
  }

  // ---------------------------------------------------------------------------
  // Reading a listing back
  // ---------------------------------------------------------------------------

  /** What follows the first `: ` of a line. */
  function FieldValue(line: string): string {
    var i := IndexOf(line, ':');
    if i + 2 <= |line| then line[i + 2..] else []
  }

  /** The number between `[` and `]` at the front of a line. */
  function EntryNumber(line: string): nat {
    var i := IndexOf(line, ']');
    if 1 <= i then ParseDecimal(line[1..i]) else 0
  }

  /** One listed entry: its number, network name and the password as shown. */
  datatype Listed = Listed(number: nat, ssid: string, shown: string)

  /** Reads entries three lines at a time. */
  function ReadEntries(lines: seq<string>): seq<Listed>
    decreases |lines|
  {
    if |lines| < 3 then []
    else
      var n := |lines|;
      ReadEntries(lines[..n - 3]) + [Listed(EntryNumber(lines[n - 3]), FieldValue(lines[n - 3]), FieldValue(lines[n - 2]))]
  }

  /** The entries of an export file, and the platform its header names. */
  function ReadExport(text: string): (string, seq<Listed>) {
    var lines := Lines(text);
    if |lines| < 5 then ([], []) else (FieldValue(lines[2]), ReadEntries(lines[5..]))
  }

  /** The entries of a console listing. */
  function ReadDisplay(text: string): seq<Listed> {
    var lines := Lines(text);
    if |lines| < 5 then [] else ReadEntries(lines[5..])
  }

  /** The entries of a `cek.py` report. */
  function ReadCek(text: string): seq<Listed> {
    ReadEntries(Lines(text))
  }

  /** What a listing shows for `list`: entry `k` is numbered `k + 1`. */
  function ListedAs(layout: Layout, list: seq<Credential>): (r: seq<Listed>)
    ensures |r| == |list|
  {
    seq(|list|, k requires 0 <= k < |list| => Listed(k + 1, list[k].ssid, Shown(layout, list[k].password)))
  }

  /** A credential whose name and shown password fit on one line each. */
  predicate OneLine(layout: Layout, c: Credential) {
    '\n' !in c.ssid && '\n' !in Shown(layout, c.password)
  }

  lemma FieldValueAfter(lead: string, v: string)
    requires ':' !in lead
    ensures FieldValue(lead + ": " + v) == v
  {
    var line := lead + ": " + v;
    assert line == lead + (": " + v);
    IndexOfBefore(lead, ':', ": " + v);
    assert line[|lead| + 2..] == v;
  }

  lemma NumberAfter(d: string, tail: string)
    requires AllDigits(d) && tail != [] && tail[0] == ']'
    ensures EntryNumber("[" + d + tail) == ParseDecimal(d)
  {
    var line := "[" + d + tail;
    assert line == ("[" + d) + tail;
    assert ']' !in "[" + d by {
      forall i | 0 <= i < |"[" + d|
        ensures ("[" + d)[i] != ']'
      {
        if i > 0 {
          assert ("[" + d)[i] == d[i - 1];
        }
      }
    }
    IndexOfBefore("[" + d, ']', tail);
    assert line[1..1 + |d|] == d;
  }

  /** No `:` before the field separator of a line, and none in a padded number. */
  lemma LeadsHaveNoColon(layout: Layout, n: nat)
    ensures ':' !in NameLead(layout, n) && ':' !in PasswordLead(layout, n)
  {
    Pad2RoundTrip(n);
    var p := Pad2(n);
    assert ':' !in p by {
      forall i | 0 <= i < |p|
        ensures p[i] != ':'
      {
        assert IsDigit(p[i]);
      }
    }
  }

  lemma EntryNumberRead(layout: Layout, n: nat, ssid: string)
    ensures EntryNumber(NameLead(layout, n) + ": " + ssid) == n
  {
    Pad2RoundTrip(n);
    var tail := NameLeadSplit(layout, n, ssid);
    NumberAfter(Pad2(n), tail);
  }

  /** An entry's first line is `[`, the two-digit number, then text starting with `]`. */
  lemma NameLeadSplit(layout: Layout, n: nat, ssid: string) returns (tail: string)
    ensures tail != [] && tail[0] == ']'
    ensures NameLead(layout, n) + ": " + ssid == "[" + Pad2(n) + tail
  {
    var caption := match layout
      case Export => "] WiFi Name "
      case Display => "] SSID     "
      case Cek => "] Wifi Name ";
    var head := "[" + Pad2(n);
    assert NameLead(layout, n) == head + caption;
    Regroup(head, caption, ": ");
    Regroup(head, caption + ": ", ssid);
    tail := caption + ": " + ssid;
  }

  /** One entry's lines read back as its number, name and shown password. */
  lemma EntryRead(layout: Layout, n: nat, c: Credential)
    ensures var lines := EntryLines(layout, n, c);
            Listed(EntryNumber(lines[0]), FieldValue(lines[0]), FieldValue(lines[1]))
            == Listed(n, c.ssid, Shown(layout, c.password))
  {
    LeadsHaveNoColon(layout, n);
    FieldValueAfter(NameLead(layout, n), c.ssid);
    FieldValueAfter(PasswordLead(layout, n), Shown(layout, c.password));
    EntryNumberRead(layout, n, c.ssid);
  }

  /** Reading three more lines adds one entry. */
  lemma ReadEntriesSnoc(prefix: seq<string>, a: string, b: string, c: string)
    ensures ReadEntries(prefix + [a, b, c]) == ReadEntries(prefix) + [Listed(EntryNumber(a), FieldValue(a), FieldValue(b))]
  {
    var lines := prefix + [a, b, c];
    assert lines[..|lines| - 3] == prefix;
  }

  lemma ListedAsSnoc(layout: Layout, list: seq<Credential>)
    requires list != []
    ensures var c := list[|list| - 1];
            ListedAs(layout, list) == ListedAs(layout, list[..|list| - 1]) + [Listed(|list|, c.ssid, Shown(layout, c.password))]
  {
  }

  /** The entry lines of a list read back as the list, numbered from 1. */
  lemma {:induction false} BlocksRead(layout: Layout, list: seq<Credential>)
    ensures ReadEntries(BlockLines(layout, list)) == ListedAs(layout, list)
  {
    if list != [] {
      var init := list[..|list| - 1];
      var c := list[|list| - 1];
      var e := EntryLines(layout, |list|, c);
      assert BlockLines(layout, list) == BlockLines(layout, init) + [e[0], e[1], e[2]];
      ReadEntriesSnoc(BlockLines(layout, init), e[0], e[1], e[2]);
      BlocksRead(layout, init);
      EntryRead(layout, |list|, c);
      ListedAsSnoc(layout, list);
    }
  }

  /** No line of these breaks in two. */
  predicate Unbroken(lines: seq<string>) {
    forall k :: 0 <= k < |lines| ==> '\n' !in lines[k]
  }

  lemma EntryUnbroken(layout: Layout, n: nat, c: Credential)
    requires OneLine(layout, c)
    ensures Unbroken(EntryLines(layout, n, c))
  {
    NoNewlineInLeads(layout, n);
    NoNewlineAfter(NameLead(layout, n), c.ssid);
    NoNewlineAfter(PasswordLead(layout, n), Shown(layout, c.password));
  }

  lemma UnbrokenConcat(a: seq<string>, b: seq<string>)
    requires Unbroken(a) && Unbroken(b)
    ensures Unbroken(a + b)
  {
    forall k | 0 <= k < |a + b|
      ensures '\n' !in (a + b)[k]
    {
      if k < |a| {
        assert (a + b)[k] == a[k];
      } else {
        assert (a + b)[k] == b[k - |a|];
      }
    }
  }

  /** No entry line breaks in two. */
  lemma {:induction false} BlockLinesUnbroken(layout: Layout, list: seq<Credential>)
    requires forall k :: 0 <= k < |list| ==> OneLine(layout, list[k])
    ensures Unbroken(BlockLines(layout, list))
  {
    if list != [] {
      var init := list[..|list| - 1];
      assert forall k :: 0 <= k < |init| ==> init[k] == list[k];
      BlockLinesUnbroken(layout, init);
      EntryUnbroken(layout, |list|, list[|list| - 1]);
      UnbrokenConcat(BlockLines(layout, init), EntryLines(layout, |list|, list[|list| - 1]));
    }
  }

  lemma NoNewlineAfter(lead: string, v: string)
    requires '\n' !in v
    requires forall i :: 0 <= i < |lead| ==> lead[i] != '\n'
    ensures '\n' !in lead + ": " + v
  {
  }

  lemma NoNewlineInLeads(layout: Layout, n: nat)
    ensures forall i :: 0 <= i < |NameLead(layout, n)| ==> NameLead(layout, n)[i] != '\n'
    ensures forall i :: 0 <= i < |PasswordLead(layout, n)| ==> PasswordLead(layout, n)[i] != '\n'
  {
    Pad2RoundTrip(n);
  }

  lemma RuleUnbroken(c: char, n: nat, tail: string)
    requires c != '\n' && '\n' !in tail
    ensures '\n' !in Rule(c, n) + tail
  {
    var s := Rule(c, n) + tail;
    forall i | 0 <= i < |s|
      ensures s[i] != '\n'
    {
      if i >= n {
        assert s[i] == tail[i - n];
      }
    }
  }

  lemma ExportHeaderUnbroken(system: string)
    requires '\n' !in system
    ensures Unbroken(ExportHeader(system))
  {
    RuleUnbroken('=', 70, "");
    RuleUnbroken(' ', 20, "WiFi Credentials Export");
    RuleUnbroken(' ', 22, "Platform: " + system);
    assert Rule('=', 70) + "" == Rule('=', 70);
    assert Rule(' ', 22) + ("Platform: " + system) == Rule(' ', 22) + "Platform: " + system;
  }

  lemma PlatformRead(system: string)
    ensures FieldValue(ExportHeader(system)[2]) == system
  {
    var lead := Rule(' ', 22) + "Platform";
    assert ExportHeader(system)[2] == lead + ": " + system;
    forall i | 0 <= i < |lead|
      ensures lead[i] != ':'
    {
      if i >= 22 {
        assert lead[i] == "Platform"[i - 22];
      }
    }
    FieldValueAfter(lead, system);
  }

  /**
   * The export file reads back as the platform and every credential, in
   * order, numbered from 1, with its password as shown.
   */
  lemma ExportRoundTrip(system: string, list: seq<Credential>)
    requires '\n' !in system
    requires forall k :: 0 <= k < |list| ==> OneLine(Export, list[k])
    ensures ReadExport(ExportText(system, list)) == (system, ListedAs(Export, list))
  {
    var lines := ExportLines(system, list);
    ExportHeaderUnbroken(system);
    BlockLinesUnbroken(Export, list);
    UnbrokenConcat(ExportHeader(system), BlockLines(Export, list));
    LinesUnlines(lines);
    assert lines[5..] == BlockLines(Export, list);
    assert lines[2] == ExportHeader(system)[2];
    PlatformRead(system);
    BlocksRead(Export, list);
  }

  lemma DisplayHeaderUnbroken(count: nat)
    ensures Unbroken(DisplayHeader(count))
  {
    RuleUnbroken('=', 70, "");
    assert Rule('=', 70) + "" == Rule('=', 70);
    var digits := Decimal(count);
    var line := " Found " + digits + " WiFi Credential(s)";
    forall i | 0 <= i < |line|
      ensures line[i] != '\n'
    {
      if 7 <= i < 7 + |digits| {
        assert line[i] == digits[i - 7];
        assert IsDigit(digits[i - 7]);
      }
    }
  }

  /**
   * The console listing reads back as every credential, in order, numbered
   * from 1; an empty list prints no entry.
   */
  lemma DisplayRoundTrip(list: seq<Credential>)
    requires forall k :: 0 <= k < |list| ==> OneLine(Display, list[k])
    ensures ReadDisplay(DisplayText(list)) == ListedAs(Display, list)
  {
    var lines := DisplayLines(list);
    if list == [] {
      assert Unbroken(lines);
      LinesUnlines(lines);
    } else {
      DisplayHeaderUnbroken(|list|);
      BlockLinesUnbroken(Display, list);
      UnbrokenConcat(DisplayHeader(|list|), BlockLines(Display, list));
      LinesUnlines(lines);
      assert lines[5..] == BlockLines(Display, list);
      BlocksRead(Display, list);
    }
  }

  /** `cek.py`'s report reads back as every credential, in order, numbered from 1, `None` for no password. */
  lemma CekRoundTrip(list: seq<Credential>)
    requires forall k :: 0 <= k < |list| ==> OneLine(Cek, list[k])
    ensures ReadCek(CekText(list)) == ListedAs(Cek, list)
  {
    BlockLinesUnbroken(Cek, list);
    LinesUnlines(BlockLines(Cek, list));
    BlocksRead(Cek, list);
  }

  /** Writing the `n`-th entry after the header and the entries before it, as the loops of the writers do. */
  lemma NextEntryText(layout: Layout, header: seq<string>, list: seq<Credential>, n: nat)
    requires 1 <= n <= |list|
    ensures var c := list[n - 1];
            Unlines(header + BlockLines(layout, list[..n]))
            == Unlines(header + BlockLines(layout, list[..n - 1])) + (NameLead(layout, n) + ": " + c.ssid) + "\n"
               + (PasswordLead(layout, n) + ": " + Shown(layout, c.password)) + "\n" + "\n"
  {
    var c := list[n - 1];
    var prior := header + BlockLines(layout, list[..n - 1]);
    assert list[..n][..n - 1] == list[..n - 1];
    assert header + BlockLines(layout, list[..n]) == prior + EntryLines(layout, n, c);
    UnlinesConcat(prior, EntryLines(layout, n, c));
    UnlinesTwoAndBlank(Unlines(prior), NameLead(layout, n) + ": " + c.ssid, PasswordLead(layout, n) + ": " + Shown(layout, c.password));
  }
}
