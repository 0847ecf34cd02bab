/**
 * What each extraction method of `WiFiExtractor` does, as functions of what
 * the host answers: the list the instance holds afterwards and the list the
 * method returns. The methods of the class are proved against these, and
 * the lemmas here say what the outcomes contain.
 */
module Extraction {
  import opened Text
  import opened Records
  import opened Steps
  import Netsh
  import Nmcli
  import Keyfile
  import KnownNetworks

  /** The instance's `wifi_list` after a method, and the list the method returns. */
  datatype Outcome = Outcome(list: seq<Credential>, result: seq<Credential>)

  /**
   * The end of every per-item loop: the entries found are on the list, which
   * is returned (`return self.wifi_list`), or `[]` is returned when the loop
   * was left through the method's `except` clause.
   */
  function Finish(list: seq<Credential>, steps: seq<Step>): (o: Outcome)
    ensures o.list == list + Appended(steps[..FirstAbort(steps)])
    ensures o.result == (if FirstAbort(steps) < |steps| then [] else o.list)
  {
    AccumulateFirstAbort(steps);
    var (entries, aborted) := Accumulate(steps);
    var extended := list + entries;
    Outcome(extended, if aborted then [] else extended)
  }

  /**
   * The text a command printed, as `subprocess.run(..., text=True)` hands it
   * over: decoded with universal newlines, so no carriage return is left. A
   * command that could not be run printed nothing.
   */
  function Output(r: CmdResult): (text: string)
    ensures '\r' !in text
  {
    if r.Completed? then Universal(r.stdout) else ""
  }

  // ---------------------------------------------------------------------------
  // Windows: netsh
  // ---------------------------------------------------------------------------

  /** A pass that ran to the end: the list grows by its entries and is returned. */
  lemma FinishComplete(list: seq<Credential>, steps: seq<Step>)
    requires !Accumulate(steps).1
    ensures Finish(list, steps) == Outcome(list + Accumulate(steps).0, list + Accumulate(steps).0)
  {
  }

  /** A pass stopped at item `i`: the entries before it stay on the list, and `[]` is returned. */
  lemma FinishStopped(list: seq<Credential>, steps: seq<Step>, i: nat)
    requires i < |steps| && !Accumulate(steps[..i]).1 && steps[i].Abort?
    ensures Finish(list, steps) == Outcome(list + Accumulate(steps[..i]).0, [])
  {
    AccumulateNext(steps, i);
    AbortIsFinal(steps, i + 1);
  }

  /**
   * One profile: `netsh wlan show profiles <name>` and, for a profile with a
   * key, `... key=clear`, both with `check=True`. A failing command ends the
   * whole method; a profile marked `Security key : Absent` is passed over.
   */
  function WindowsStep(run: Runner, name: string): Step {
    var info := run(NetshShowProfile(name));
    if !Succeeded(info) then Abort
    else if Netsh.IsKeyless(Output(info)) then Skip
    else
      var keyInfo := run(NetshShowProfileKey(name));
      if !Succeeded(keyInfo) then Abort
      else Append(Credential(name, Netsh.KeyContent(Output(keyInfo))))
  }

  function WindowsSteps(run: Runner, names: seq<string>): (steps: seq<Step>)
    ensures |steps| == |names|
  {
    seq(|names|, k requires 0 <= k < |names| => WindowsStep(run, names[k]))
  }

  /** `_extract_windows`. */
  function WindowsOutcome(run: Runner, list: seq<Credential>): Outcome {
    var listing := run(NetshShowProfiles);
    if !Succeeded(listing) then Outcome(list, [])
    else
      var names := Netsh.ProfileNames(Output(listing));
      if names == [] then Outcome(list, [])
      else Finish(list, WindowsSteps(run, names))
  }

  /** Both commands a profile needs run cleanly. */
  predicate ProfileAnswers(run: Runner, name: string) {
    var info := run(NetshShowProfile(name));
    Succeeded(info)
    && (!Netsh.IsKeyless(Output(info)) ==> Succeeded(run(NetshShowProfileKey(name))))
  }

  /** What the reference records for one profile: nothing when it is marked keyless, else its key content. */
  function KeyedEntryOf(run: Runner, name: string): seq<Credential> {
    if Netsh.IsKeyless(Output(run(NetshShowProfile(name)))) then []
    else [Credential(name, Netsh.KeyContent(Output(run(NetshShowProfileKey(name)))))]
  }

  /** The reference: the profiles with a key, each with the key content of its `key=clear` output, in order. */
  function KeyedProfiles(run: Runner, names: seq<string>): seq<Credential> {
    Flatten(seq(|names|, k requires 0 <= k < |names| => KeyedEntryOf(run, names[k])))
  }

  /** For a profile whose commands answer, the loop body does what the reference records. */
  lemma WindowsStepAnswers(run: Runner, name: string)
    requires ProfileAnswers(run, name)
    ensures !WindowsStep(run, name).Abort?
    ensures Contribution(WindowsStep(run, name)) == KeyedEntryOf(run, name)
  {
    var info := run(NetshShowProfile(name));
    var keyless := Netsh.IsKeyless(Output(info));
    if keyless {
      assert WindowsStep(run, name) == Skip;
    } else {
      var c := Credential(name, Netsh.KeyContent(Output(run(NetshShowProfileKey(name)))));
      assert WindowsStep(run, name) == Append(c);
      assert KeyedEntryOf(run, name) == [c];
    }
  }

  /** A profile whose detail says the key is absent is passed over. */
  lemma WindowsStepKeyless(run: Runner, name: string)
    requires Succeeded(run(NetshShowProfile(name))) && Netsh.IsKeyless(Output(run(NetshShowProfile(name))))
    ensures WindowsStep(run, name) == Skip
  {
  }

  /** When every profile answers, the pass collects exactly the keyed-profile reference. */
  lemma WindowsAppended(run: Runner, names: seq<string>)
    requires forall k :: 0 <= k < |names| ==> ProfileAnswers(run, names[k])
    ensures NoAbort(WindowsSteps(run, names))
    ensures Appended(WindowsSteps(run, names)) == KeyedProfiles(run, names)
  {
    var steps := WindowsSteps(run, names);
    var parts := seq(|names|, k requires 0 <= k < |names| => KeyedEntryOf(run, names[k]));
    forall k | 0 <= k < |names|
      ensures !steps[k].Abort? && Contribution(steps[k]) == parts[k]
    {
      WindowsStepAnswers(run, names[k]);
    }
    AppendedFlatten(steps, parts);
  }

  /**
   * When every command answers, the method adds one entry per profile with
   * a key, in listing order, with its key content, and returns the list.
   */
  lemma WindowsAllAnswer(run: Runner, list: seq<Credential>)
    requires Succeeded(run(NetshShowProfiles))
    requires var names := Netsh.ProfileNames(Output(run(NetshShowProfiles)));
             names != [] && forall k :: 0 <= k < |names| ==> ProfileAnswers(run, names[k])
    ensures var names := Netsh.ProfileNames(Output(run(NetshShowProfiles)));
            WindowsOutcome(run, list)
            == Outcome(list + KeyedProfiles(run, names), list + KeyedProfiles(run, names))
  {
    var names := Netsh.ProfileNames(Output(run(NetshShowProfiles)));
    var steps := WindowsSteps(run, names);
    WindowsAppended(run, names);
    FirstAbortAll(steps);
  }

  /**
   * When a command fails for profile `k` and not before, the method returns
   * `[]`, but the entries of the profiles before `k` stay on the list.
   */
  lemma WindowsFailureAt(run: Runner, list: seq<Credential>, k: nat)
    requires Succeeded(run(NetshShowProfiles))
    requires var names := Netsh.ProfileNames(Output(run(NetshShowProfiles)));
             k < |names| && !ProfileAnswers(run, names[k])
             && forall j :: 0 <= j < k ==> ProfileAnswers(run, names[j])
    ensures var names := Netsh.ProfileNames(Output(run(NetshShowProfiles)));
            WindowsOutcome(run, list) == Outcome(list + KeyedProfiles(run, names[..k]), [])
  {
    var names := Netsh.ProfileNames(Output(run(NetshShowProfiles)));
    WindowsPassStopsAt(run, names, list, k);
  }

  /** The pass over `names` when profile `k` is the first whose commands fail. */
  lemma WindowsPassStopsAt(run: Runner, names: seq<string>, list: seq<Credential>, k: nat)
    requires k < |names| && !ProfileAnswers(run, names[k])
    requires forall j :: 0 <= j < k ==> ProfileAnswers(run, names[j])
    ensures Finish(list, WindowsSteps(run, names)) == Outcome(list + KeyedProfiles(run, names[..k]), [])
  {
    var steps := WindowsSteps(run, names);
    assert steps[..k] == WindowsSteps(run, names[..k]);
    WindowsAppended(run, names[..k]);
    WindowsStepFails(run, names[k]);
    FirstAbortAt(steps, k);
  }

  /** A profile whose commands do not both run cleanly ends the pass. */
  lemma WindowsStepFails(run: Runner, name: string)
    requires !ProfileAnswers(run, name)
    ensures WindowsStep(run, name).Abort?
  {
  }

  /** `c` is what the method records for a profile with a key: its name, and the key content of `key=clear`. */
  predicate KeyedEntry(run: Runner, c: Credential) {
    var info := run(NetshShowProfile(c.ssid));
    var keyInfo := run(NetshShowProfileKey(c.ssid));
    Succeeded(info) && !Netsh.IsKeyless(Output(info))
    && Succeeded(keyInfo) && c.password == Netsh.KeyContent(Output(keyInfo))
  }

  lemma WindowsStepAppends(run: Runner, name: string, c: Credential)
    requires WindowsStep(run, name) == Append(c)
    ensures c.ssid == name && KeyedEntry(run, c)
  {
  }

  /**
   * Whatever the host answers, every entry the method adds is a listed
   * profile that is not marked keyless, with the key content of its
   * `key=clear` output.
   */
  lemma WindowsEntriesKeyed(run: Runner, list: seq<Credential>, c: Credential)
    requires c in WindowsOutcome(run, list).list[|list|..]
    ensures Succeeded(run(NetshShowProfiles))
    ensures var names := Netsh.ProfileNames(Output(run(NetshShowProfiles)));
            exists k :: 0 <= k < |names| && names[k] == c.ssid && KeyedEntry(run, c)
  {
    var listing := run(NetshShowProfiles);
    if Succeeded(listing) && Netsh.ProfileNames(Output(listing)) != [] {
      var names := Netsh.ProfileNames(Output(listing));
      var steps := WindowsSteps(run, names);
      var done := steps[..FirstAbort(steps)];
      assert c in Appended(done);
      AppendedMembers(done, c);
      var k :| 0 <= k < |done| && done[k] == Append(c);
      assert steps[k] == WindowsStep(run, names[k]);
      WindowsStepAppends(run, names[k], c);
    }
  }

  /**
   * For the listing netsh writes for these profiles, header and closing lines
   * included, all of whose commands answer, the method records exactly the
   * profiles with a key, in listing order, and returns the list.
   */
  lemma WindowsFromNetsh(run: Runner, header: seq<string>, names: seq<string>, trailer: seq<string>, list: seq<Credential>)
    requires Netsh.Untagged(header) && Netsh.Untagged(trailer)
    requires forall k :: 0 <= k < |header| ==> '\r' !in header[k]
    requires forall k :: 0 <= k < |trailer| ==> '\r' !in trailer[k]
    requires forall k :: 0 <= k < |names| ==> names[k] != [] && Trimmed(names[k]) && '\n' !in names[k] && '\r' !in names[k]
    requires Succeeded(run(NetshShowProfiles))
    requires run(NetshShowProfiles).stdout == Netsh.NetshOutput(Netsh.ListingLines(header, names, trailer))
    requires names != [] && forall k :: 0 <= k < |names| ==> ProfileAnswers(run, names[k])
    ensures WindowsOutcome(run, list) == Outcome(list + KeyedProfiles(run, names), list + KeyedProfiles(run, names))
  {
    Netsh.ProfileNamesFromNetsh(header, names, trailer);
    WindowsAllAnswer(run, list);
  }

  /**
   * For a profile with a key whose `key=clear` output netsh writes with the
   * key on its `Key Content` line, the method records that key.
   */
  lemma WindowsKeyFromNetsh(run: Runner, name: string, before: seq<string>, key: string, after: seq<string>)
    requires !Netsh.IsKeyless(Output(run(NetshShowProfile(name))))
    requires run(NetshShowProfileKey(name)) == Completed(0, Netsh.NetshOutput(Netsh.KeyLines(before, key, after)))
    requires forall j :: 0 <= j < |before| ==> !Contains(before[j], Netsh.KeyTag) && '\r' !in before[j]
    requires forall j :: 0 <= j < |after| ==> '\r' !in after[j]
    requires key != [] && Trimmed(key) && '\n' !in key && '\r' !in key
    ensures KeyedEntryOf(run, name) == [Credential(name, Some(key))]
  {
    Netsh.KeyLinesNoCr(before, key, after);
    UniversalCrlf(Netsh.KeyLines(before, key, after));
    Netsh.KeyContentFound(before, key, after);
  }

  // ---------------------------------------------------------------------------
  // Linux: nmcli
  // ---------------------------------------------------------------------------

  /**
   * One connection: `nmcli -s -g 802-11-wireless-security.psk connection show
   * <name>` with `check=True`. Any failure is caught by the bare `except` and
   * the connection is passed over.
   */
  function NmcliStep(run: Runner, conn: string): Step {
    var r := run(NmcliPsk(conn));
    if Succeeded(r) then Append(Credential(conn, NonEmpty(Strip(Output(r))))) else Skip
  }

  function NmcliSteps(run: Runner, names: seq<string>): (steps: seq<Step>)
    ensures |steps| == |names|
  {
    seq(|names|, k requires 0 <= k < |names| => NmcliStep(run, names[k]))
  }

  /** The connections `_extract_linux_nmcli` walks: none unless `which nmcli` and the listing both succeed. */
  function NmcliNames(run: Runner): seq<string> {
    if !Succeeded(run(WhichNmcli)) || !Succeeded(run(NmcliConnections)) then []
    else Nmcli.WirelessConnections(Output(run(NmcliConnections)))
  }

  /** `_extract_linux_nmcli`. */
  function NmcliOutcome(run: Runner, list: seq<Credential>): Outcome {
    if !Succeeded(run(WhichNmcli)) then Outcome(list, [])
    else
      var listing := run(NmcliConnections);
      if !Succeeded(listing) then Outcome(list, [])
      else
        var names := Nmcli.WirelessConnections(Output(listing));
        if names == [] then Outcome(list, [])
        else Finish(list, NmcliSteps(run, names))
  }

  /** What the reference records for one connection: its stripped key, when the query succeeds. */
  function PskEntryOf(run: Runner, conn: string): seq<Credential> {
    var r := run(NmcliPsk(conn));
    if Succeeded(r) then [Credential(conn, NonEmpty(Strip(Output(r))))] else []
  }

  /** The reference: the connections whose key query succeeds, in order, with their keys. */
  function PskCredentials(run: Runner, names: seq<string>): seq<Credential> {
    Flatten(seq(|names|, k requires 0 <= k < |names| => PskEntryOf(run, names[k])))
  }

  /** What `_extract_linux_nmcli` finds, from an empty list. */
  function NmcliFound(run: Runner): seq<Credential> {
    PskCredentials(run, NmcliNames(run))
  }

  lemma NmcliAppended(run: Runner, names: seq<string>)
    ensures NoAbort(NmcliSteps(run, names))
    ensures Appended(NmcliSteps(run, names)) == PskCredentials(run, names)
  {
    var steps := NmcliSteps(run, names);
    var parts := seq(|names|, k requires 0 <= k < |names| => PskEntryOf(run, names[k]));
    assert forall k :: 0 <= k < |names| ==> steps[k] == NmcliStep(run, names[k]);
    AppendedFlatten(steps, parts);
  }

  /** One more connection of a pass. */
  lemma NmcliNext(run: Runner, names: seq<string>, i: nat)
    requires i < |names| && !Accumulate(NmcliSteps(run, names)[..i]).1
    ensures Accumulate(NmcliSteps(run, names)[..i + 1])
            == (Accumulate(NmcliSteps(run, names)[..i]).0 + PskEntryOf(run, names[i]), false)
  {
    AccumulateNext(NmcliSteps(run, names), i);
  }

  /**
   * Once there are wireless connections, a failing key query never stops the
   * method: it adds the connections whose query succeeds, in order, and
   * returns the list.
   */
  lemma NmcliCollects(run: Runner, list: seq<Credential>)
    requires NmcliNames(run) != []
    ensures NmcliOutcome(run, list) == Outcome(list + NmcliFound(run), list + NmcliFound(run))
  {
    var names := NmcliNames(run);
    var steps := NmcliSteps(run, names);
    NmcliAppended(run, names);
    FirstAbortAll(steps);
  }

  /** Started from an empty list, the method returns what it found, and leaves it on the list. */
  lemma NmcliFromEmpty(run: Runner)
    ensures NmcliOutcome(run, []) == Outcome(NmcliFound(run), NmcliFound(run))
  {
    if NmcliNames(run) != [] {
      NmcliCollects(run, []);
    } else {
      assert Flatten([]) == [];
    }
  }

  /**
   * With nmcli answering the terse listing of these connections, the ones
   * walked are those whose listing line passes the wireless test.
   */
  lemma NmcliNamesFromListing(run: Runner, entries: seq<(string, string)>)
    requires Succeeded(run(WhichNmcli))
    requires entries != [] && Succeeded(run(NmcliConnections)) && Output(run(NmcliConnections)) == Nmcli.NmcliTerse(entries)
    requires forall k :: 0 <= k < |entries| ==> ':' !in entries[k].0 && '\n' !in entries[k].0
    requires forall k :: 0 <= k < |entries| ==> entries[k].1 != [] && '\n' !in entries[k].1
    requires entries[0].0 == [] || !IsSpace(entries[0].0[0])
    requires Trimmed(entries[|entries| - 1].1)
    ensures NmcliNames(run) == Nmcli.WirelessNames(entries)
  {
    Nmcli.NmcliRoundTrip(entries);
  }

  // ---------------------------------------------------------------------------
  // Linux: NetworkManager keyfiles
  // ---------------------------------------------------------------------------

  /** One file of the directory: unreadable files and files without `ssid=`/`id=` are passed over. */
  function ConfigStep(f: FileRead): Step {
    match f
    case ReadError => Skip
    case Read(content) =>
      match Keyfile.KeyfileCredential(content)
      case None => Skip
      case Some(c) => Append(c)
  }

  function ConfigSteps(files: seq<FileRead>): (steps: seq<Step>)
    ensures |steps| == |files|
  {
    seq(|files|, k requires 0 <= k < |files| => ConfigStep(files[k]))
  }

  /** `_extract_linux_config_files`. */
  function ConfigOutcome(dir: ConfigDir, list: seq<Credential>): Outcome {
    match dir
    case Missing => Outcome(list, [])
    case NoReadAccess => Outcome(list, [])
    case Listing(files) =>
      if files == [] then Outcome(list, []) else Finish(list, ConfigSteps(files))
  }

  /** What the reference records for one file: its credential, when it can be read and names a network. */
  function KeyfileEntryOf(f: FileRead): seq<Credential> {
    if f.Read? && Keyfile.KeyfileCredential(f.content).Some? then [Keyfile.KeyfileCredential(f.content).value] else []
  }

  /** The reference: the credentials of the files that parse, in directory order. */
  function ParsedKeyfiles(files: seq<FileRead>): seq<Credential> {
    Flatten(seq(|files|, k requires 0 <= k < |files| => KeyfileEntryOf(files[k])))
  }

  /** What `_extract_linux_config_files` finds, from an empty list. */
  function ConfigFound(dir: ConfigDir): seq<Credential> {
    if dir.Listing? then ParsedKeyfiles(dir.files) else []
  }

  lemma ConfigAppended(files: seq<FileRead>)
    ensures NoAbort(ConfigSteps(files))
    ensures Appended(ConfigSteps(files)) == ParsedKeyfiles(files)
  {
    var steps := ConfigSteps(files);
    var parts := seq(|files|, k requires 0 <= k < |files| => KeyfileEntryOf(files[k]));
    forall k | 0 <= k < |files|
      ensures !steps[k].Abort? && Contribution(steps[k]) == parts[k]
    {
      assert steps[k] == ConfigStep(files[k]);
    }
    AppendedFlatten(steps, parts);
  }

  /** One more file of a pass over the directory. */
  lemma ConfigNext(files: seq<FileRead>, i: nat)
    requires i < |files| && !Accumulate(ConfigSteps(files)[..i]).1
    ensures Accumulate(ConfigSteps(files)[..i + 1]) == (Accumulate(ConfigSteps(files)[..i]).0 + KeyfileEntryOf(files[i]), false)
  {
    AccumulateNext(ConfigSteps(files), i);
  }

  /**
   * A readable, non-empty directory: the method adds the credential of every
   * file that parses, in directory order, and returns the list; a file that
   * cannot be read or names no network never stops it.
   */
  lemma ConfigCollects(files: seq<FileRead>, list: seq<Credential>)
    requires files != []
    ensures ConfigOutcome(Listing(files), list)
            == Outcome(list + ParsedKeyfiles(files), list + ParsedKeyfiles(files))
  {
    ConfigAppended(files);
    FirstAbortAll(ConfigSteps(files));
  }

  /** Started from an empty list, the method returns what it found, and leaves it on the list. */
  lemma ConfigFromEmpty(dir: ConfigDir)
    ensures ConfigOutcome(dir, []) == Outcome(ConfigFound(dir), ConfigFound(dir))
  {
    if dir.Listing? && dir.files != [] {
      ConfigCollects(dir.files, []);
    } else if dir.Listing? {
      assert Flatten([]) == [];
    }
  }

  /** A credential the keyfile format can hold: a name without surrounding whitespace, line breaks or `psk=`. */
  predicate Storable(c: Credential) {
    c.ssid != [] && Trimmed(c.ssid) && '\n' !in c.ssid && !Contains(c.ssid, "psk=")
    && (c.password.Some? ==> c.password.value != [] && Trimmed(c.password.value) && '\n' !in c.password.value)
  }

  /** The directory holding one keyfile per credential, in order. */
  function KeyfilesFor(creds: seq<Credential>): seq<FileRead> {
    seq(|creds|, k requires 0 <= k < |creds| => Read(Keyfile.KeyfileText(creds[k].ssid, creds[k].password)))
  }

  /** Each saved connection is read back from its keyfile: the method finds exactly the credentials stored. */
  lemma ConfigRoundTrip(creds: seq<Credential>, list: seq<Credential>)
    requires creds != [] && forall k :: 0 <= k < |creds| ==> Storable(creds[k])
    ensures ConfigOutcome(Listing(KeyfilesFor(creds)), list) == Outcome(list + creds, list + creds)
  {
    var files := KeyfilesFor(creds);
    var parts := seq(|files|, k requires 0 <= k < |files| => KeyfileEntryOf(files[k]));
    forall k | 0 <= k < |creds|
      ensures parts[k] == [creds[k]]
    {
      assert files[k] == Read(Keyfile.KeyfileText(creds[k].ssid, creds[k].password));
      KeyfileEntryRoundTrip(creds[k]);
    }
    FlattenSingletons(parts, creds);
    ConfigCollects(files, list);
  }

  /** The keyfile written for a storable credential is parsed back to it. */
  lemma KeyfileEntryRoundTrip(c: Credential)
    requires Storable(c)
    ensures KeyfileEntryOf(Read(Keyfile.KeyfileText(c.ssid, c.password))) == [c]
  {
    Keyfile.KeyfileRoundTrip(c.ssid, c.password);
  }

  /** Lists of one element each flatten to those elements. */
  lemma {:induction false} FlattenSingletons(parts: seq<seq<Credential>>, items: seq<Credential>)
    requires |parts| == |items| && forall k :: 0 <= k < |parts| ==> parts[k] == [items[k]]
    ensures Flatten(parts) == items
  {
    if parts != [] {
      forall k | 0 <= k < |parts| - 1
        ensures parts[1..][k] == [items[1..][k]]
      {
        assert parts[1..][k] == parts[k + 1];
      }
      FlattenSingletons(parts[1..], items[1..]);
    }
  }

  // ---------------------------------------------------------------------------
  // Linux
  // ---------------------------------------------------------------------------

  /**
   * `_extract_linux`: nmcli first; the keyfiles when nmcli returns an empty
   * list; `[]` when both do. Both methods append to the same list.
   */
  function LinuxOutcome(run: Runner, dir: ConfigDir, list: seq<Credential>): Outcome {
    var viaNmcli := NmcliOutcome(run, list);
    if viaNmcli.result != [] then viaNmcli
    else
      var viaFiles := ConfigOutcome(dir, viaNmcli.list);
      if viaFiles.result != [] then viaFiles else Outcome(viaFiles.list, [])
  }

  /**
   * From an empty list, Linux returns what nmcli finds when that is not
   * empty, and otherwise what the keyfiles hold.
   */
  lemma LinuxFromEmpty(run: Runner, dir: ConfigDir)
    ensures var found := if NmcliFound(run) != [] then NmcliFound(run) else ConfigFound(dir);
            LinuxOutcome(run, dir, []) == Outcome(found, found)
  {
    NmcliFromEmpty(run);
    ConfigFromEmpty(dir);
  }

  // ---------------------------------------------------------------------------
  // macOS
  // ---------------------------------------------------------------------------

  /** The networks `_extract_macos` reads from the `defaults` dump, duplicates kept. */
  function MacosSsids(run: Runner): seq<string> {
    var prefs := run(DefaultsKnownNetworks);
    if Succeeded(prefs) then KnownNetworks.KnownSsids(Output(prefs)) else []
  }

  /** `set(ssids)`. */
  function NameSet(ssids: seq<string>): set<string> {
    set s | s in ssids
  }

  /** `order` lists every member of `s` once: one order in which `for ssid in set(...)` may visit them. */
  predicate Enumerates(order: seq<string>, s: set<string>) {
    (forall i, j :: 0 <= i < j < |order| ==> order[i] != order[j])
    && (forall x :: x in order ==> x in s) && (forall x :: x in s ==> x in order)
  }

  /**
   * One network: `security find-generic-password ... -w` with `check=True`.
   * A non-zero exit is caught and the network passed over; a missing
   * `security` executable escapes the loop and ends the method.
   */
  function MacosStep(run: Runner, ssid: string): Step {
    var r := run(KeychainPassword(ssid));
    if r.NotFound? then Abort
    else if Succeeded(r) then Append(Credential(ssid, NonEmpty(Strip(Output(r)))))
    else Skip
  }

  function MacosSteps(run: Runner, order: seq<string>): (steps: seq<Step>)
    ensures |steps| == |order|
  {
    seq(|order|, k requires 0 <= k < |order| => MacosStep(run, order[k]))
  }

  /**
   * `_extract_macos`, visiting the distinct networks in `order`. Without
   * networks the `airport -s` fallback runs; its output is not used, but a
   * missing executable ends the method with `[]`.
   */
  function MacosOutcome(run: Runner, order: seq<string>, list: seq<Credential>): Outcome {
    if !Succeeded(run(DefaultsKnownNetworks)) then Outcome(list, [])
    else if MacosSsids(run) == [] && run(AirportScan).NotFound? then Outcome(list, [])
    else Finish(list, MacosSteps(run, order))
  }

  /** What the reference records for one network: its stripped keychain password, when the lookup succeeds. */
  function KeychainEntryOf(run: Runner, ssid: string): seq<Credential> {
    var r := run(KeychainPassword(ssid));
    if Succeeded(r) then [Credential(ssid, NonEmpty(Strip(Output(r))))] else []
  }

  /** The reference: the networks of `order` whose keychain lookup succeeds, with their passwords. */
  function KeychainCredentials(run: Runner, order: seq<string>): seq<Credential> {
    Flatten(seq(|order|, k requires 0 <= k < |order| => KeychainEntryOf(run, order[k])))
  }

  /** The keychain tool answers for every network of `order`. */
  predicate KeychainReachable(run: Runner, order: seq<string>) {
    forall k :: 0 <= k < |order| ==> run(KeychainPassword(order[k])).Completed?
  }

  lemma MacosAppended(run: Runner, order: seq<string>)
    requires KeychainReachable(run, order)
    ensures NoAbort(MacosSteps(run, order))
    ensures Appended(MacosSteps(run, order)) == KeychainCredentials(run, order)
  {
    var steps := MacosSteps(run, order);
    var parts := seq(|order|, k requires 0 <= k < |order| => KeychainEntryOf(run, order[k]));
    assert forall k :: 0 <= k < |order| ==> steps[k] == MacosStep(run, order[k]);
    AppendedFlatten(steps, parts);
  }

  /**
   * With the dump read and the keychain tool present, the method adds the
   * networks whose lookup succeeds, each with its password, and returns the
   * list.
   */
  lemma MacosCollects(run: Runner, order: seq<string>, list: seq<Credential>)
    requires Succeeded(run(DefaultsKnownNetworks))
    requires MacosSsids(run) != [] || run(AirportScan).Completed?
    requires KeychainReachable(run, order)
    ensures MacosOutcome(run, order, list)
            == Outcome(list + KeychainCredentials(run, order), list + KeychainCredentials(run, order))
  {
    MacosAppended(run, order);
    FirstAbortAll(MacosSteps(run, order));
  }

  /**
   * A missing keychain tool ends the method with `[]`; the networks visited
   * before it stay on the list.
   */
  lemma MacosKeychainMissing(run: Runner, order: seq<string>, list: seq<Credential>, k: nat)
    requires Succeeded(run(DefaultsKnownNetworks))
    requires Enumerates(order, NameSet(MacosSsids(run)))
    requires k < |order| && run(KeychainPassword(order[k])).NotFound?
    requires KeychainReachable(run, order[..k])
    ensures MacosOutcome(run, order, list) == Outcome(list + KeychainCredentials(run, order[..k]), [])
  {
    assert order[k] in NameSet(MacosSsids(run));
    assert MacosSsids(run) != [];
    MacosPassStopsAt(run, order, list, k);
  }

  /** The pass over `order` when network `k` is the first whose lookup cannot run. */
  lemma MacosPassStopsAt(run: Runner, order: seq<string>, list: seq<Credential>, k: nat)
    requires k < |order| && run(KeychainPassword(order[k])).NotFound?
    requires KeychainReachable(run, order[..k])
    ensures Finish(list, MacosSteps(run, order)) == Outcome(list + KeychainCredentials(run, order[..k]), [])
  {
    var steps := MacosSteps(run, order);
    assert steps[..k] == MacosSteps(run, order[..k]);
    MacosAppended(run, order[..k]);
    assert steps[k].Abort?;
    FirstAbortAt(steps, k);
  }

  /** `c` is what the method records for a network: a successful lookup, its output stripped, `None` when empty. */
  predicate KeychainEntry(run: Runner, c: Credential) {
    var r := run(KeychainPassword(c.ssid));
    Succeeded(r) && c.password == NonEmpty(Strip(Output(r)))
  }

  /**
   * Over an enumeration of a set of networks, the reference holds one entry
   * per network whose lookup succeeds and nothing else: what is found does
   * not depend on the order the set is visited in.
   */
  lemma KeychainCredentialsMembers(run: Runner, order: seq<string>, s: set<string>, c: Credential)
    requires Enumerates(order, s)
    ensures c in KeychainCredentials(run, order) <==> c.ssid in s && KeychainEntry(run, c)
  {
    var parts := seq(|order|, k requires 0 <= k < |order| => KeychainEntryOf(run, order[k]));
    FlattenMembers(parts, c);
    if c.ssid in s && KeychainEntry(run, c) {
      var k :| 0 <= k < |order| && order[k] == c.ssid;
      assert c in parts[k];
    }
  }

  /** Each network of the set is recorded at most once. */
  lemma KeychainCredentialsDistinct(run: Runner, order: seq<string>, s: set<string>)
    requires Enumerates(order, s)
    ensures DistinctNames(KeychainCredentials(run, order))
  {
    var parts := seq(|order|, k requires 0 <= k < |order| => KeychainEntryOf(run, order[k]));
    FlattenDistinct(parts, order);
  }

  /** Two orders of the same set find the same credentials. */
  lemma MacosOrderIrrelevant(run: Runner, order1: seq<string>, order2: seq<string>, s: set<string>, c: Credential)
    requires Enumerates(order1, s) && Enumerates(order2, s)
    ensures c in KeychainCredentials(run, order1) <==> c in KeychainCredentials(run, order2)
  {
    KeychainCredentialsMembers(run, order1, s, c);
    KeychainCredentialsMembers(run, order2, s, c);
  }

  /**
   * For a dump listing these networks (each with a name free of `"` and
   * `;`, printed quoted or bare, among other keys and braces on lines
   * without `SSID_STR`), visited in any order of the set of them: the
   * method returns one credential per listed network whose lookup
   * succeeds, and no other.
   */
  lemma MacosFromDump(run: Runner, header: seq<string>, networks: seq<KnownNetworks.Network>, trailer: seq<string>,
                      order: seq<string>, c: Credential)
    requires Succeeded(run(DefaultsKnownNetworks))
    requires Output(run(DefaultsKnownNetworks)) == KnownNetworks.KnownNetworksDump(header, networks, trailer)
    requires KnownNetworks.Unkeyed(header) && KnownNetworks.Unkeyed(trailer)
    requires forall k :: 0 <= k < |networks| ==> KnownNetworks.Listed(networks[k])
    requires networks != [] && Enumerates(order, NameSet(KnownNetworks.Ssids(networks))) && KeychainReachable(run, order)
    ensures c in MacosOutcome(run, order, []).result <==> c.ssid in KnownNetworks.Ssids(networks) && KeychainEntry(run, c)
    ensures DistinctNames(MacosOutcome(run, order, []).result)
  {
    var ssids := KnownNetworks.Ssids(networks);
    KnownNetworks.KnownSsidsRoundTrip(header, networks, trailer);
    MacosCollects(run, order, []);
    KeychainCredentialsMembers(run, order, NameSet(ssids), c);
    KeychainCredentialsDistinct(run, order, NameSet(ssids));
  }

  /** The set's members in some order. */
  ghost function EnumerationOf(s: set<string>): (order: seq<string>)
    ensures Enumerates(order, s)
    decreases s
  {
    if s == {} then []
    else
      var x :| x in s;
      [x] + EnumerationOf(s - {x})
  }

  /** The networks visited, the one being visited, and the ones never reached, together list the set once each. */
  lemma EnumerationJoin(order: seq<string>, x: string, rest: seq<string>, all: set<string>, remaining: set<string>)
    requires forall y :: y in order ==> y in all && y !in remaining && y != x
    requires forall i, j :: 0 <= i < j < |order| ==> order[i] != order[j]
    requires x in all && x !in remaining && remaining <= all
    requires forall y :: y in all ==> y in order || y == x || y in remaining
    requires Enumerates(rest, remaining)
    ensures Enumerates(order + [x] + rest, all)
  {
    var o := order + [x] + rest;
    forall i, j | 0 <= i < j < |o|
      ensures o[i] != o[j]
    {
      if j < |order| {
      } else if j == |order| {
        assert o[i] in order;
      } else if i < |order| {
        assert o[i] in order && o[j] in rest;
      } else if i == |order| {
        assert o[j] in rest;
      } else {
        assert o[i] == rest[i - |order| - 1] && o[j] == rest[j - |order| - 1];
      }
    }
  }

  lemma MacosStepsSnoc(run: Runner, order: seq<string>, x: string)
    ensures MacosSteps(run, order + [x]) == MacosSteps(run, order) + [MacosStep(run, x)]
  {
  }

  /** One more network of a pass, when its lookup does not stop the pass. */
  lemma MacosNext(run: Runner, order: seq<string>, x: string)
    requires !Accumulate(MacosSteps(run, order)).1 && !MacosStep(run, x).Abort?
    ensures Accumulate(MacosSteps(run, order + [x]))
            == (Accumulate(MacosSteps(run, order)).0 + Contribution(MacosStep(run, x)), false)
  {
    MacosStepsSnoc(run, order, x);
    AccumulateSnoc(MacosSteps(run, order), MacosStep(run, x));
  }

  /** A network whose lookup cannot run stops the pass: nothing after it is looked at. */
  lemma MacosStopsAt(run: Runner, order: seq<string>, x: string, rest: seq<string>)
    requires !Accumulate(MacosSteps(run, order)).1 && MacosStep(run, x).Abort?
    ensures forall list :: Finish(list, MacosSteps(run, order + [x] + rest))
                           == Outcome(list + Accumulate(MacosSteps(run, order)).0, [])
  {
    var full := MacosSteps(run, order + [x] + rest);
    assert full[..|order|] == MacosSteps(run, order);
    forall list
      ensures Finish(list, full) == Outcome(list + Accumulate(MacosSteps(run, order)).0, [])
    {
      FinishStopped(list, full, |order|);
    }
  }

  // ---------------------------------------------------------------------------
  // Dispatch
  // ---------------------------------------------------------------------------

  /**
   * `extract_wifi_passwords`: the method for the platform; any other system
   * gets `[]` and an unchanged list.
   */
  function ExtractOutcome(system: Platform, run: Runner, dir: ConfigDir, order: seq<string>,
                          list: seq<Credential>): Outcome
  {
    match system
    case Windows => WindowsOutcome(run, list)
    case Linux => LinuxOutcome(run, dir, list)
    case Darwin => MacosOutcome(run, order, list)
    case Other(_) => Outcome(list, [])
  }

  /**
   * The dispatch on the name `platform.system()` returns: each known name
   * runs its own method, and any other name changes nothing and returns `[]`.
   */
  lemma DispatchByName(name: string, run: Runner, dir: ConfigDir, order: seq<string>, list: seq<Credential>)
    ensures var o := ExtractOutcome(PlatformOf(name), run, dir, order, list);
            && (name == "Windows" ==> o == WindowsOutcome(run, list))
            && (name == "Linux" ==> o == LinuxOutcome(run, dir, list))
            && (name == "Darwin" ==> o == MacosOutcome(run, order, list))
            && (name != "Windows" && name != "Linux" && name != "Darwin" ==> o == Outcome(list, []))
  {
  }

  /** Whatever a platform method does, its list only grows, and it returns `[]` or the whole list. */
  predicate Grows(list: seq<Credential>, o: Outcome) {
    |list| <= |o.list| && o.list[..|list|] == list && (o.result == [] || o.result == o.list)
  }

  lemma FinishGrows(list: seq<Credential>, steps: seq<Step>)
    ensures Grows(list, Finish(list, steps))
  {
  }

  lemma WindowsGrows(run: Runner, list: seq<Credential>)
    ensures Grows(list, WindowsOutcome(run, list))
  {
    var listing := run(NetshShowProfiles);
    if Succeeded(listing) && Netsh.ProfileNames(Output(listing)) != [] {
      FinishGrows(list, WindowsSteps(run, Netsh.ProfileNames(Output(listing))));
    }
  }

  lemma NmcliGrows(run: Runner, list: seq<Credential>)
    ensures Grows(list, NmcliOutcome(run, list))
  {
    var listing := run(NmcliConnections);
    if Succeeded(run(WhichNmcli)) && Succeeded(listing) && Nmcli.WirelessConnections(Output(listing)) != [] {
      FinishGrows(list, NmcliSteps(run, Nmcli.WirelessConnections(Output(listing))));
    }
  }

  lemma ConfigGrows(dir: ConfigDir, list: seq<Credential>)
    ensures Grows(list, ConfigOutcome(dir, list))
  {
    if dir.Listing? && dir.files != [] {
      FinishGrows(list, ConfigSteps(dir.files));
    }
  }

  lemma MacosGrows(run: Runner, order: seq<string>, list: seq<Credential>)
    ensures Grows(list, MacosOutcome(run, order, list))
  {
    FinishGrows(list, MacosSteps(run, order));
  }

  lemma LinuxGrows(run: Runner, dir: ConfigDir, list: seq<Credential>)
    ensures Grows(list, LinuxOutcome(run, dir, list))
  {
    var viaNmcli := NmcliOutcome(run, list);
    var viaFiles := ConfigOutcome(dir, viaNmcli.list);
    NmcliGrows(run, list);
    ConfigGrows(dir, viaNmcli.list);
    assert viaFiles.list[..|list|] == viaFiles.list[..|viaNmcli.list|][..|list|];
  }

  /**
   * On every platform the list only grows, and what is returned is either
   * `[]` or the whole list.
   */
  lemma ExtractGrows(system: Platform, run: Runner, dir: ConfigDir, order: seq<string>, list: seq<Credential>)
    ensures Grows(list, ExtractOutcome(system, run, dir, order, list))
  {
    match system
    case Windows => WindowsGrows(run, list);
    case Linux => LinuxGrows(run, dir, list);
    case Darwin => MacosGrows(run, order, list);
    case Other(_) =>
  }
}
