# WiFi credential extractor, modelled in Dafny

This project models the core of a small WiFi credential extractor. It has
two scripts:

- `wifi_extractor.py`, a multi-platform `WiFiExtractor` class. It works as
  follows:
  - It asks the host for its saved WiFi networks:
    - on Windows, through `netsh wlan show profiles`;
    - on Linux, through `nmcli`, falling back to the NetworkManager keyfiles
      in `/etc/NetworkManager/system-connections`;
    - on macOS, through the `defaults` dump of the preferred networks and
      the `security` keychain tool.
  - It appends every credential it finds to its `wifi_list`.
  - It either returns that list or returns `[]` when a failure ends the
    method.
  - It can write the list to `wifi.txt` (`save_to_file`) or print it
    (`display_results`).
- `cek.py`, an older Windows-only script. It runs the same `netsh` queries
  with different regular expressions and no exit-code checks, then writes
  its own `wifi.txt`.

## What is modelled

**The outside world.** The host is a function `Runner` from the command
run (one `Command` constructor per argument list) to its result:
- `Completed(exitCode, stdout)`;
- or `NotFound` when the executable is missing.

`subprocess.run(..., check=True)` succeeds exactly when the result is
`Completed` with exit code 0 (`Succeeded`). `wifi_extractor.py` reads what
a command printed through `Output`, which decodes it with universal newlines
as `text=True` does (so netsh's `\r\n` line ends arrive as `\n`); `cek.py`
reads the raw text, carriage returns included. The platform is read from
the name `platform.system()` returns (`PlatformOf`). The connection directory is a
`ConfigDir`: missing, unreadable, or a `glob` listing of file reads.

**The regular expressions.** Each one is matched as Python's `re` matches it
(module `Patterns`):
- Greedy quantifiers. Any backtracking a pattern can do is worked out by
  hand.
- `.` matches any character but `\n`.
- `\s` matches Python's `str` whitespace.
- `re.search` is the leftmost match, and `re.findall` collects the
  non-overlapping matches.

**The loops.** Every loop of the extractor is a list of per-item `Step`s:
- `Append` a credential;
- `Skip` (`continue`);
- `Abort` (leave through the method's `except`).

`Steps.Accumulate` gives what a pass leaves behind. Each platform method is
a function of `Extraction` returning an `Outcome`: the new `wifi_list` and
the returned list.

**The class.** `Extractor.WiFiExtractor` is a class with a `wifiList`
field. Its methods run the loops imperatively, with loop invariants, and
are proved to produce exactly the `Outcome` of the matching function.

**The report texts.** The three texts (the export file, the console
listing and `cek.py`'s file) are functions of `Report`. The writing loops
are proved to produce them. Reader functions take each text apart again,
and round-trip lemmas prove that the reader gives back every credential,
in order and with its number.

**`cek.py`.** `main` becomes `Cek.CekMain`. Its result is the text written
to `wifi.txt` (the strings passed to `write`, in order), or `None` when the
script stops before writing.

## Model

| member | source | states |
|---|---|---|
| Text.Strip | wifi_extractor.py:68 | `str.strip()`: the result has no whitespace at either end |
| Text.StripIsSlice | wifi_extractor.py:93 | `strip()` returns a contiguous slice of its input |
| Text.StripAround | wifi_extractor.py:68 | `strip()` of a trimmed core surrounded by any whitespace returns exactly that core |
| Text.StripTrimmed | wifi_extractor.py:208 | `strip()` leaves a string without surrounding whitespace unchanged |
| Text.Split | wifi_extractor.py:143 | `split(sep)` yields pieces free of `sep` that `sep.join` puts back together into the input |
| Text.SplitJoin | wifi_extractor.py:143 | `split` undoes `join` when no piece holds the separator |
| Text.Contains | wifi_extractor.py:144 | the `in` test on strings holds exactly when the text occurs at some position |
| Text.LinesUnlines | wifi_extractor.py:292-301 | text written one line at a time reads back as those lines when no line holds a newline |
| Text.Universal | wifi_extractor.py:52-57 | `text=True` decoding with universal newlines leaves no carriage return and never lengthens the text |
| Text.UniversalCrlf | wifi_extractor.py:52-57 | lines written with `\r\n` endings decode to the same lines with `\n` endings |
| Records.NonEmpty | wifi_extractor.py:165 | `x if x else None`: `None` exactly for empty output, otherwise the output itself |
| Records.PlatformOf | wifi_extractor.py:20 | the platform read from the name `platform.system()` returns carries that name, and is `Other` only for a name that is not `Windows`, `Linux` or `Darwin` |
| Records.PlatformOfName | wifi_extractor.py:38-44 | reading back the name of a platform gives that platform |
| Patterns.LineEnd | wifi_extractor.py:59 | `.*` stops at the first newline or the end of the text, and spans no newline |
| Patterns.FindAllStartsWithSearch | wifi_extractor.py:59 | `findall` is empty exactly when `search` finds nothing, and its first group is the one `search` returns |
| Patterns.FindAllSound | wifi_extractor.py:242 | every group `findall` returns is the group of a match at some position of the text |
| Patterns.FieldMatches | wifi_extractor.py:59 | `tag\s+:\s+(.*)` on a `tag : value` line captures the value up to the end of the line, whatever whitespace surrounds the colon |
| Patterns.FieldIsMatches | wifi_extractor.py:79 | `Security key\s+:\s+Absent` matches a `tag : value` line for that value |
| Patterns.CrFieldMatches | cek.py:10 | `prefix(.*)\r` captures the value before the line's last carriage return, even when the value itself holds one |
| Patterns.CrFieldOneLine | cek.py:21 | the group of `prefix(.*)\r` never spans a newline |
| Patterns.AssignMatches | wifi_extractor.py:211 | `psk=(.+)` on a `psk=value` line captures the value |
| Patterns.QuotedSsidMatches | wifi_extractor.py:242 | `SSID_STR\s*=\s*"?([^";]+)"?` on a `SSID_STR = "name"` entry captures the name and spans its closing quote |
| Patterns.SearchSkip | wifi_extractor.py:204 | `re.search` passes over positions where nothing matches |
| Patterns.SearchFront | wifi_extractor.py:204 | a match at the front is what `re.search` returns |
| Patterns.FirstLineFound | wifi_extractor.py:204 | `re.search` over lines finds the match on the first line holding one of the pattern's anchors, when no earlier line holds one |
| Patterns.FindAllPassesLines | wifi_extractor.py:242 | `re.findall` gives nothing for lines none of which holds an anchor of the pattern, and goes on with what follows them |
| Patterns.NoLineFound | wifi_extractor.py:211-212 | `re.search` finds nothing in lines none of which holds an anchor of the pattern and which end in nothing it matches |
| Patterns.BareSsidMatches | wifi_extractor.py:242 | `SSID_STR\s*=\s*"?([^";]+)"?` on an unquoted `SSID_STR = name;` entry captures the name and stops at the `;` |
| Steps.Accumulate | wifi_extractor.py:67-95 | a pass adds at most one entry per item |
| Steps.AccumulateNoAbort | wifi_extractor.py:152-169 | a pass without an `Abort` visits every item and adds exactly the `Append` entries, in order |
| Steps.AccumulateStopsAt | wifi_extractor.py:99-104 | a pass whose first `Abort` is at `k` keeps the entries before `k` and reports that it stopped |
| Steps.AccumulateFirstAbort | wifi_extractor.py:67-104 | a pass leaves exactly the entries before its first `Abort`, and says whether there was one |
| Steps.AbortIsFinal | wifi_extractor.py:99-101 | once a pass has stopped, later items change nothing |
| Steps.AbortStops | wifi_extractor.py:99-101 | a pass with an `Abort` anywhere stops |
| Steps.AccumulateEntry | wifi_extractor.py:95 | every entry a pass collects is the entry of one of its `Append` steps |
| Steps.AppendedMembers | wifi_extractor.py:95 | an entry is among the `Append` entries exactly when some step appends it |
| Steps.AppendedFlatten | wifi_extractor.py:67-95 | steps that each add what a reference list says add those lists one after the other |
| Steps.FlattenMembers | wifi_extractor.py:260 | an entry is in the joined lists exactly when it is in one of them |
| Steps.FlattenDistinct | wifi_extractor.py:260 | lists keyed by distinct networks join to entries for distinct networks |
| Steps.AccumulateNext | wifi_extractor.py:67-95 | one more item of an unstopped pass adds its contribution and stops the pass exactly on an `Abort` |
| Steps.AccumulateAbortAt | wifi_extractor.py:99-104 | a pass that reaches an `Abort` at `i` ends with what it had before `i` |
| Netsh.ProfileNames | wifi_extractor.py:59-68 | every profile name taken from the `All User Profile\s+:\s+(.*)` groups is stripped: none has whitespace at either end |
| Netsh.ProfileNamesRoundTrip | wifi_extractor.py:59-68 | a profile list whose lines end in `\n`, with any header and closing lines free of the tag's first letter around the profile lines, reads back as exactly the names it lists, in order, for trimmed names without line breaks |
| Netsh.ProfileGroups | wifi_extractor.py:59 | on a profile list whose lines end in `\n`, as `text=True` hands it over, header and closing lines included, the raw groups of the profile pattern are exactly the names, in order |
| Netsh.ProfileNamesFromNetsh | wifi_extractor.py:52-68 | the `\r\n`-terminated list netsh writes, header and closing lines included, decoded with universal newlines, reads back as exactly the names it lists, in order |
| Netsh.IsKeyless | wifi_extractor.py:79 | definition, no contract: `Security key\s+:\s+Absent` is found somewhere in the detail text; `Patterns.FieldIsMatches` and `Extraction.WindowsStepKeyless` characterise it |
| Netsh.KeyContent | wifi_extractor.py:92-93 | the key is `None` exactly when `Key Content\s+:\s+(.*)` is not found, and otherwise is stripped; `KeyContentFound` and `KeyContentAbsent` tie it to the `key=clear` text |
| Netsh.KeyContentFound | wifi_extractor.py:85-93 | a decoded `key=clear` text with the key on its `Key Content` line, and no `Key Content` before it, gives exactly that key |
| Netsh.KeyContentAbsent | wifi_extractor.py:92-93 | a decoded `key=clear` text with no `Key Content` line gives `None` |
| Netsh.CekProfileNames | cek.py:10 | `cek.py`'s names are the `All User Profile     : (.*)\r` groups, none holding a newline |
| Netsh.CekProfileNamesRoundTrip | cek.py:10 | `cek.py` reads netsh's list, header and closing lines included, back exactly, unstripped, for names without line breaks |
| Netsh.WindowsListingRead | wifi_extractor.py:52-68 | the listing netsh prints for a Wi-Fi interface, with its `Profiles on interface`, group-policy and `User profiles` header lines and closing blank line, reads back as its profile names in both scripts: stripped and decoded in `wifi_extractor.py`, raw in `cek.py` (cek.py:9-10) |
| Netsh.CekIsKeyless | cek.py:16 | definition, no contract: the literal `Security key           : Absent` occurs in the raw detail text; `Cek.CekStepAnswers` and `Cek.CekAllAnswer` characterise it |
| Netsh.CekKeyContent | cek.py:21-25 | the `Key Content            : (.*)\r` group, when found, holds no newline; `CekKeyContentFound` and `CekKeyContentAbsent` tie it to the `key=clear` text |
| Netsh.CekKeyContentFound | cek.py:20-25 | the raw `\r\n`-terminated `key=clear` output with the key on its `Key Content` line, and no earlier such line, gives exactly that key, unstripped |
| Netsh.CekKeyContentAbsent | cek.py:21-23 | raw `key=clear` output with no `Key Content` line gives `None` |
| Netsh.CrFieldSearchHasNoNewline | cek.py:21 | the group `re.search` returns for `prefix(.*)\r` holds no newline |
| Netsh.CrFieldGroupHasNoNewline | cek.py:10 | no group `re.findall` returns for `prefix(.*)\r` holds a newline |
| Nmcli.SelectWireless | wifi_extractor.py:141-145 | the selection keeps names free of `:`, and is empty exactly when no line passes the wireless test |
| Nmcli.WirelessConnections | wifi_extractor.py:141-145 | the connection names taken from the listing hold no `:` |
| Nmcli.NmcliRoundTrip | wifi_extractor.py:141-145 | nmcli's terse listing reads back as exactly the names whose line passes the wireless test, in listing order |
| Nmcli.SelectTerse | wifi_extractor.py:142-144 | `line.split(':')[0]` of the selected `NAME:TYPE` lines gives the names of the selected connections |
| Nmcli.TerseStrip | wifi_extractor.py:143 | stripping the listing leaves its lines joined by newlines |
| Nmcli.TerseSplit | wifi_extractor.py:143 | splitting the stripped listing at newlines gives its lines |
| Nmcli.WirelessTypeSelected | wifi_extractor.py:144 | a connection whose type names `802-11-wireless` is selected, whatever its name |
| Nmcli.WifiNameSelected | wifi_extractor.py:144 | the test reads the name too: a connection whose name contains lowercase `wifi` is selected whatever its type (the test is case-sensitive) |
| Nmcli.WiredNotSelected | wifi_extractor.py:144 | a line without a lowercase `w` holds neither `802-11-wireless` nor `wifi`, so it is not selected |
| Nmcli.DefaultWiredNotSelected | wifi_extractor.py:144 | NetworkManager's default wired connection, `Wired connection 1:802-3-ethernet`, is not selected |
| Keyfile.KeyfileCredential | wifi_extractor.py:201-212 | no credential exactly when `(?:ssid\|id)=` is not found; otherwise a trimmed name, and a password that is `None` exactly when `psk=` is not found, trimmed otherwise |
| Keyfile.KeyfileRoundTrip | wifi_extractor.py:201-212 | a keyfile with an `ssid=` line and an optional `psk=` line reads back as that credential |
| Keyfile.KeyfileLinesRead | wifi_extractor.py:201-212 | a keyfile of any lines reads as the value of the first line holding `ssid=` or `id=` and the value of the first line holding `psk=`, or no password when no line holds `psk=`, in either order and with any other lines around them |
| Keyfile.NameFromLine | wifi_extractor.py:204 | the name is the value of the first line that holds `ssid=` or `id=`, when that line is an `ssid=` or `id=` line |
| Keyfile.PskFromLine | wifi_extractor.py:211 | the password is the value of the first line that holds `psk=`, when that line is a `psk=` line |
| Keyfile.NoPskLine | wifi_extractor.py:211-212 | with no line holding `psk=`, the `psk=` search finds nothing |
| Keyfile.NmKeyfileRead | wifi_extractor.py:201-212 | the keyfile NetworkManager writes for a WPA-PSK network, with its `[connection]`, `[wifi]` and `[wifi-security]` sections, reads as the connection `id` and its key |
| Keyfile.IdPskExample | wifi_extractor.py:201-212 | the keyfile `id=MyNet` / `psk=secret123` reads as `MyNet` with password `secret123` |
| Keyfile.NameLineMatches | wifi_extractor.py:204 | `(?:ssid\|id)=(.+)` on an `ssid=` or `id=` line captures the value up to the end of the line |
| Keyfile.PskLineMatches | wifi_extractor.py:211 | `psk=(.+)` on a `psk=` line captures the value up to the end of the line |
| Keyfile.IdLineFound | wifi_extractor.py:204 | the `(?:ssid\|id)=` search finds the value of a leading `id=` line |
| Keyfile.SsidSearchSkips | wifi_extractor.py:204 | the `(?:ssid\|id)=` search passes over text without `s` or `i` |
| Keyfile.AssignFirstMatches | wifi_extractor.py:204 | the first alternative of `(?:ssid\|id)=(.+)` matches a `key=value` line for that key |
| Keyfile.UuidLineShadowsId | wifi_extractor.py:204 | the search is unanchored: when a `uuid=` line comes before the `id=` line, the name read is the uuid |
| KnownNetworks.KnownSsids | wifi_extractor.py:242 | every SSID read is the group of a `SSID_STR` match at some position of the dump |
| KnownNetworks.KnownSsidsRoundTrip | wifi_extractor.py:232-242 | a dump of one dictionary per network, each with its `SSID_STR = "name";` or `SSID_STR = name;` line among other lines (keys, braces) free of `SSID_STR`, between any opening and closing lines free of `SSID_STR`, reads back as exactly the networks' SSIDs, in order and with repetitions, for names free of `"` and `;` (a bare one not starting with whitespace) |
| KnownNetworks.NetworkYields | wifi_extractor.py:242 | one network's dictionary yields its SSID, and the scan resumes after its closing line |
| KnownNetworks.EntryYields | wifi_extractor.py:242 | one `SSID_STR` line, quoted or bare, under any indentation without `S`, yields its name, and the scan resumes after it |
| KnownNetworks.UnkeyedPassed | wifi_extractor.py:242 | lines without `SSID_STR` add nothing to `findall`, whatever follows them |
| KnownNetworks.AirportDumpRead | wifi_extractor.py:232-242 | the dump `defaults` prints, `{`, then per network its `"wifi.ssid.<hex>" =     {` line, `AutoLogin`, `Captive`, `LastConnected`, `SSID`, `SSIDString`, `SSID_STR`, `SecurityType` and `SystemMode` keys and `};`, then `}`, reads back as the networks' SSIDs, in order, for readable names and hex keys without `_` (so no line but the `SSID_STR` one holds that key) |
| KnownNetworks.BareEntryMatches | wifi_extractor.py:242 | the pattern matches a bare `SSID_STR = name;` entry up to its `;`, capturing the name |
| KnownNetworks.RepeatedSsidCollapses | wifi_extractor.py:242-260 | a network whose dictionary is listed twice is read twice, and `set(...)` makes it one network |
| KnownNetworks.EmptyQuotedSsidCapturesSpace | wifi_extractor.py:242 | `SSID_STR = "";` still yields a group: the one space before the quotes |
| Report.Decimal | wifi_extractor.py:299 | `str(n)` is a non-empty run of digits, one digit exactly below 10, with no leading zero |
| Report.DecimalRoundTrip | wifi_extractor.py:299 | reading the digits of `str(n)` gives `n` |
| Report.Pad2RoundTrip | wifi_extractor.py:299 | `{idx:02d}` has at least two digits and reads back as `idx` |
| Report.ShownPassword | wifi_extractor.py:300 | `password or 'N/A'`: the password when present and non-empty, otherwise `N/A` |
| Report.CekShownPassword | cek.py:36 | a missing password prints as `None`, a present one as itself |
| Report.Rule | wifi_extractor.py:293 | `"=" * n` is `n` copies of the character |
| Report.EntryLines | wifi_extractor.py:299-301 | an entry is written as three lines |
| Report.BlockLines | wifi_extractor.py:298-301 | a list is written as three lines per credential |
| Report.ListedAs | wifi_extractor.py:298 | a listing shows one numbered entry per credential |
| Report.EntryRead | wifi_extractor.py:299-300 | an entry's two lines read back as its number, name and shown password |
| Report.LeadsHaveNoColon | wifi_extractor.py:299-300 | no `:` comes before the `: ` that separates a line's value |
| Report.EntryNumberRead | wifi_extractor.py:299 | the number between `[` and `]` of an entry's first line reads back as `idx` |
| Report.BlocksRead | wifi_extractor.py:298-301 | the entry lines of a list read back as the list, numbered from 1 |
| Report.BlockLinesUnbroken | wifi_extractor.py:298-301 | no entry line breaks in two when names and shown passwords have no newline |
| Report.ExportHeaderUnbroken | wifi_extractor.py:293-296 | no header line breaks in two for a platform name without a newline |
| Report.PlatformRead | wifi_extractor.py:295 | the header's platform line reads back as the platform name |
| Report.ExportText | wifi_extractor.py:289-301 | definition, no contract: the header lines, then three lines per credential; `Report.ExportRoundTrip` characterises it |
| Report.ExportRoundTrip | wifi_extractor.py:289-301 | the export file reads back as the platform and every credential, in order, numbered from 1, with its shown password |
| Report.DisplayHeaderUnbroken | wifi_extractor.py:316-318 | no line of the console header breaks in two |
| Report.DisplayText | wifi_extractor.py:310-323 | definition, no contract: the console header, then three lines per credential; `Report.DisplayRoundTrip` characterises it |
| Report.DisplayRoundTrip | wifi_extractor.py:310-323 | the console listing reads back as every credential, in order, numbered from 1 |
| Report.CekText | cek.py:34-39 | definition, no contract: three lines per credential, no header; `Report.CekRoundTrip` characterises it |
| Report.CekRoundTrip | cek.py:34-39 | `cek.py`'s file reads back as every credential, in order, numbered from 1, `None` for no password |
| Report.NextEntryText | wifi_extractor.py:298-301 | writing the `n`-th entry's three lines after the first `n - 1` gives the text of the first `n` |
| Extraction.Finish | wifi_extractor.py:95-104 | a method ends with the entries before the first `Abort` on the list, and returns `[]` when there was one and the whole list otherwise |
| Extraction.Output | wifi_extractor.py:52-57 | the `.stdout` of a `text=True` run holds no carriage return |
| Extraction.FinishComplete | wifi_extractor.py:97 | a pass that ran to the end grows the list by its entries and returns it |
| Extraction.FinishStopped | wifi_extractor.py:99-101 | a pass stopped at item `i` keeps the entries before it and returns `[]` |
| Extraction.WindowsStep | wifi_extractor.py:72-95 | definition, no contract: one profile's loop body as a step; `WindowsStepAnswers`, `WindowsStepKeyless`, `WindowsStepFails` and `WindowsStepAppends` characterise it |
| Extraction.WindowsOutcome | wifi_extractor.py:48-104 | definition, no contract: the Windows method's list and returned value; `WindowsAllAnswer`, `WindowsFromNetsh`, `WindowsFailureAt`, `WindowsEntriesKeyed` and `WindowsGrows` characterise it |
| Extraction.WindowsStepAnswers | wifi_extractor.py:72-95 | for a profile whose commands succeed, the loop body adds exactly what the keyed-profile reference records |
| Extraction.WindowsStepKeyless | wifi_extractor.py:79-80 | a profile whose detail says the key is absent is passed over |
| Extraction.WindowsStepFails | wifi_extractor.py:72-90 | a profile whose detail or key query fails ends the pass |
| Extraction.WindowsAppended | wifi_extractor.py:67-95 | when every profile answers, the pass never stops and collects exactly the keyed profiles with their keys, in order |
| Extraction.WindowsAllAnswer | wifi_extractor.py:48-97 | when every command succeeds, the method adds one entry per keyed profile, in listing order, and returns the list |
| Extraction.WindowsFromNetsh | wifi_extractor.py:52-97 | for the `\r\n`-terminated profile list netsh writes, header and closing lines included, with every profile answering, the method records exactly the keyed profiles, in listing order, and returns the list |
| Extraction.WindowsKeyFromNetsh | wifi_extractor.py:85-95 | a keyed profile whose `key=clear` output has the key on its `Key Content` line is recorded with exactly that key |
| Extraction.WindowsFailureAt | wifi_extractor.py:67-101 | when profile `k` is the first whose command fails, the method returns `[]` and the entries of the profiles before `k` stay on the list |
| Extraction.WindowsPassStopsAt | wifi_extractor.py:67-101 | the same, for any list of profile names |
| Extraction.WindowsStepAppends | wifi_extractor.py:82-95 | an appended entry names its profile, which was not marked keyless, and holds the key content of its `key=clear` output |
| Extraction.WindowsEntriesKeyed | wifi_extractor.py:48-104 | whatever the host answers, every entry added is a listed, keyed profile with its key content |
| Extraction.WindowsGrows | wifi_extractor.py:48-104 | the Windows method only appends, and returns `[]` or the whole list |
| Extraction.NmcliStep | wifi_extractor.py:155-169 | definition, no contract: one connection's loop body as a step; `NmcliNext` and `NmcliAppended` characterise it |
| Extraction.NmcliOutcome | wifi_extractor.py:127-176 | definition, no contract: the nmcli method's list and returned value; `NmcliCollects`, `NmcliFromEmpty`, `NmcliNamesFromListing` and `NmcliGrows` characterise it |
| Extraction.NmcliAppended | wifi_extractor.py:152-169 | the nmcli pass never stops, and collects exactly the connections whose key query succeeds |
| Extraction.NmcliNext | wifi_extractor.py:155-169 | one more connection adds its stripped key when its query succeeds and nothing otherwise |
| Extraction.NmcliCollects | wifi_extractor.py:127-171 | once there are wireless connections, a failing key query never stops the method; it adds the connections whose query succeeds and returns the list |
| Extraction.NmcliFromEmpty | wifi_extractor.py:127-176 | from an empty list, the method returns what it found and leaves it on the list |
| Extraction.NmcliNamesFromListing | wifi_extractor.py:131-145 | with `which nmcli` and the listing succeeding, the connections walked are the wireless ones of the listing |
| Extraction.NmcliGrows | wifi_extractor.py:127-176 | the nmcli method only appends, and returns `[]` or the whole list |
| Extraction.ConfigStep | wifi_extractor.py:198-221 | definition, no contract: one keyfile's loop body as a step; `ConfigNext` and `ConfigAppended` characterise it |
| Extraction.ConfigOutcome | wifi_extractor.py:178-226 | definition, no contract: the keyfile method's list and returned value; `ConfigCollects`, `ConfigFromEmpty`, `ConfigRoundTrip` and `ConfigGrows` characterise it |
| Extraction.ConfigAppended | wifi_extractor.py:198-221 | the keyfile pass never stops, and collects exactly the credentials of the files that parse |
| Extraction.ConfigNext | wifi_extractor.py:198-221 | one more file adds its credential when it can be read and names a network, and nothing otherwise |
| Extraction.ConfigCollects | wifi_extractor.py:178-223 | for a readable, non-empty directory, the method adds the credential of every file that parses, in directory order, and returns the list |
| Extraction.ConfigFromEmpty | wifi_extractor.py:178-226 | from an empty list, the method returns what it found and leaves it on the list; a missing or unreadable directory gives `[]` |
| Extraction.ConfigRoundTrip | wifi_extractor.py:178-223 | a directory holding one keyfile per credential gives back exactly those credentials |
| Extraction.ConfigGrows | wifi_extractor.py:178-226 | the keyfile method only appends, and returns `[]` or the whole list |
| Extraction.LinuxOutcome | wifi_extractor.py:106-125 | definition, no contract: nmcli first, then the keyfiles when nmcli found nothing; `LinuxFromEmpty` and `LinuxGrows` characterise it |
| Extraction.LinuxFromEmpty | wifi_extractor.py:106-125 | from an empty list, Linux returns what nmcli finds when that is not empty, and otherwise what the keyfiles hold |
| Extraction.LinuxGrows | wifi_extractor.py:106-125 | trying nmcli and then the keyfiles only appends, and returns `[]` or the whole list |
| Extraction.MacosStep | wifi_extractor.py:263-280 | definition, no contract: one network's keychain lookup as a step; `MacosNext`, `MacosStopsAt` and `MacosAppended` characterise it |
| Extraction.MacosOutcome | wifi_extractor.py:228-287 | definition, no contract: the macOS method's list and returned value for a visiting order; `MacosCollects`, `MacosKeychainMissing`, `MacosFromDump` and `MacosGrows` characterise it |
| Extraction.MacosAppended | wifi_extractor.py:260-280 | when the keychain tool runs for every network, the pass never stops and collects exactly the successful lookups |
| Extraction.MacosCollects | wifi_extractor.py:228-282 | with the dump read, the `airport` fallback (when needed) started, and the keychain tool present for every network, the method adds the networks whose lookup succeeds, with their passwords, and returns the list |
| Extraction.MacosKeychainMissing | wifi_extractor.py:260-287 | a missing keychain tool ends the method with `[]`; the networks visited before it stay on the list |
| Extraction.MacosPassStopsAt | wifi_extractor.py:260-287 | the same, for any visiting order |
| Extraction.KeychainCredentialsMembers | wifi_extractor.py:260-276 | whatever the visiting order of the set, an entry is found exactly when its network is in the set and its lookup succeeds with that password |
| Extraction.KeychainCredentialsDistinct | wifi_extractor.py:260 | each network of the set is recorded at most once |
| Extraction.MacosOrderIrrelevant | wifi_extractor.py:260 | two visiting orders of the same set find the same credentials |
| Extraction.MacosFromDump | wifi_extractor.py:228-282 | for a dump of one dictionary per network, braces and other keys included, with names quoted or bare, the method returns one credential per listed network whose lookup succeeds, and no other, without duplicates |
| Extraction.MacosNext | wifi_extractor.py:263-280 | one more network, when its lookup does not stop the pass, adds its stripped password when the lookup succeeds |
| Extraction.MacosStopsAt | wifi_extractor.py:284-287 | a network whose lookup cannot run stops the pass; nothing after it is looked at |
| Extraction.MacosGrows | wifi_extractor.py:228-287 | the macOS method only appends, and returns `[]` or the whole list |
| Extraction.ExtractOutcome | wifi_extractor.py:36-46 | definition, no contract: the outcome of the platform's method, or `[]` and the list unchanged; `ExtractGrows` and `DispatchByName` characterise it |
| Extraction.ExtractGrows | wifi_extractor.py:36-46 | on every platform the list only grows, and what is returned is `[]` or the whole list |
| Extraction.DispatchByName | wifi_extractor.py:36-46 | the name `platform.system()` returns picks the method: `Windows`, `Linux` and `Darwin` run their own, any other name returns `[]` and leaves the list as it was |
| Extraction.EnumerationOf | wifi_extractor.py:260 | every set can be visited in some order that lists each member once |
| Extractor.WiFiExtractor.constructor | wifi_extractor.py:19-21 | the extractor records the platform named by `platform.system()`, a valid one, and starts with an empty list |
| Extractor.WiFiExtractor.ExtractWindows | wifi_extractor.py:48-104 | the list and the returned value are exactly those of the Windows outcome |
| Extractor.WiFiExtractor.CollectProfiles | wifi_extractor.py:67-101 | the loop over the profiles leaves the list, and the failure flag, of the Windows pass |
| Extractor.WiFiExtractor.NextProfile | wifi_extractor.py:67-95 | one iteration keeps the list equal to the entries of the profiles done so far, or ends the pass |
| Extractor.WiFiExtractor.CollectProfile | wifi_extractor.py:72-95 | one profile appends what its step adds, and reports whether the pass stops |
| Extractor.WiFiExtractor.ExtractNmcli | wifi_extractor.py:127-176 | the list and the returned value are exactly those of the nmcli outcome |
| Extractor.WiFiExtractor.CollectPsks | wifi_extractor.py:152-171 | the loop over the connections leaves the list of the nmcli pass, which never fails |
| Extractor.WiFiExtractor.ExtractConfigFiles | wifi_extractor.py:178-226 | the list and the returned value are exactly those of the keyfile outcome |
| Extractor.WiFiExtractor.ExtractLinux | wifi_extractor.py:106-125 | nmcli first, then the keyfiles, give exactly the Linux outcome |
| Extractor.WiFiExtractor.ExtractMacos | wifi_extractor.py:228-287 | the networks are visited in some order of the set of SSIDs, and the list and returned value are those of the macOS outcome for that order |
| Extractor.WiFiExtractor.CollectKeychain | wifi_extractor.py:260-280 | the loop over the set visits each network once and leaves the list, and the failure flag, of the macOS pass in that order |
| Extractor.WiFiExtractor.LookUpKeychain | wifi_extractor.py:263-280 | one network appends what its step adds, and reports whether the pass stops |
| Extractor.WiFiExtractor.ExtractWifiPasswords | wifi_extractor.py:36-46 | the method for the extractor's platform runs; any other system gets `[]` and an unchanged list |
| Extractor.WiFiExtractor.SaveToFile | wifi_extractor.py:289-308 | the text written to `wifi.txt` is the export text for the platform and the list, or nothing is written and `False` is returned when it cannot be opened |
| Extractor.WiFiExtractor.DisplayResults | wifi_extractor.py:310-323 | what is printed is the console listing of the list |
| Cek.CekMain | cek.py:4-40 | the text written to `wifi.txt` is the report of the list the loop kept, or there is none when a `netsh` run fails to start or the file cannot be opened |
| Cek.CollectProfiles | cek.py:12-26 | the loop keeps the entries of the profiles up to the first `netsh` run that fails to start, and reports that failure |
| Cek.CollectProfile | cek.py:15-26 | one profile adds its name and key content unless marked keyless, and stops the script when `netsh` cannot run |
| Cek.WriteReport | cek.py:34-40 | the writing loop produces the report text, one numbered entry per credential |
| Cek.CekStep | cek.py:15-26 | definition, no contract: one profile's loop body as a step; `CekStepAnswers`, `CekStepOneLine` and `CekStopsOnMissingNetsh` characterise it |
| Cek.CekList | cek.py:9-26 | definition, no contract: the list the loop keeps, or none when a `netsh` run fails to start; `CekAllAnswer`, `CekStopsOnMissingNetsh` and `CekEntriesOneLine` characterise it |
| Cek.CekFile | cek.py:27-40 | definition, no contract: the text written to `wifi.txt`, when the list was kept and the file opens; `CekFileReadsBack` and `CekFromListing` characterise it |
| Cek.CekAllAnswer | cek.py:9-26 | when `netsh` always runs, the loop never stops and keeps exactly the profiles without the absent-key marker |
| Cek.CekStepAnswers | cek.py:15-26 | for a profile whose queries run, the loop body keeps what the reference records |
| Cek.CekStopsOnMissingNetsh | cek.py:15 | a profile whose detail query cannot run ends the script before the file is opened |
| Cek.CekStepOneLine | cek.py:19-25 | an entry names its profile, and its name and key fit on one line each |
| Cek.CekEntriesOneLine | cek.py:12-26 | every entry kept names a listed profile and fits on one line of the report |
| Cek.CekFileReadsBack | cek.py:27-40 | the text written to `wifi.txt` reads back as the list the loop kept, in order, numbered from 1 |
| Cek.CekFromListing | cek.py:9-40 | for a listing of these profiles between netsh's header and closing lines, all of whose queries run, the file lists exactly the keyed profiles, in listing order |
| Cek.CekKeyFromNetsh | cek.py:19-26 | a profile not marked keyless whose raw `key=clear` output has the key on its `Key Content` line is kept with exactly that key |

## Left out

- Console output: the `print` messages, the banner, `clear_screen`, `pause`, `input` and `cek.py`'s `system("cls")`, `title` and `MODE CON` calls. They do not affect the list or the files.
- `main` of `wifi_extractor.py`: the privilege warning and the `KeyboardInterrupt` / exit handling. Only the methods it calls are modelled.
- Process details: commands are a `Runner` parameter whose `stdout` is the raw text a command wrote. `wifi_extractor.py`'s `text=True` runs are read through `Output`, which applies universal-newline decoding (`\r\n` and a lone `\r` become `\n`); `cek.py`'s `.decode()` keeps the carriage returns, which its patterns expect. Character decoding itself and a `UnicodeDecodeError` on undecodable output are not modelled.
- Keyfile contents are the text `open(..., 'r').read()` returns, already decoded with universal newlines.
- The `airport -s` fallback: its output is never used. Only a missing executable matters, and it ends the method.
- Iteration order of `set(ssids)`: Python's order is not specified. The methods choose any element (`:|`) and return the order they chose as a ghost value, and the lemmas hold for every order.
- `save_to_file` is modelled as the text written when the file can be opened (`writable`). A write failing part-way and the `encoding` argument are not modelled.
- `cek.py`'s `open` with the `fsutil` fallback is modelled as one `opens` flag. A failure on both attempts ends the script.
- Newline translation on write: both scripts open `wifi.txt` in text mode, so on Windows every `\n` written reaches the file as `\r\n`. The model gives the text handed to `write`, before that translation.
- `cek.py`'s `open` uses the locale encoding. A profile name or key outside that code page raises `UnicodeEncodeError` in the middle of the writing loop, which ends the script and leaves a partial file. The model assumes every entry can be encoded and gives the whole text.
- `cek.py`'s `load(nama_file)` is not modelled. `load` is defined nowhere, so the script raises `NameError` after `wifi.txt` has been written and closed. The content of the file is unaffected.
- File contents and directories are given as values (`FileRead`, `ConfigDir`). `Path.exists`, `os.access` and `glob` themselves are not modelled, and `glob` order is the order of the listing.
- Text.Strip: its contract states only that the result is trimmed. That the result is the slice of the input between two runs of whitespace is stated by the separate lemma `Text.StripIsSlice`.
