/**
 * `cek.py`, the older Windows script: it lists the saved profiles with
 * `netsh`, keeps those whose detail does not say the key is absent, reads
 * each key with `key=clear`, and writes them all to `wifi.txt`.
 *
 * Its `subprocess.run` calls pass no `check=True`, so a command that exits
 * non-zero is read like any other; only a missing `netsh` executable raises,
 * and nothing but `KeyboardInterrupt` is caught, so that ends the script
 * before anything is written.
 */
module Cek {
  import opened Text
  import opened Records
  import opened Steps
  import Netsh
  import Report

  // ---------------------------------------------------------------------------
  // What the script does, as functions of what the host answers
  // ---------------------------------------------------------------------------

  /** One iteration of the loop over the profile names. */
  function CekStep(run: Runner, name: string): Step {
    var info := run(NetshShowProfile(name));
    if info.NotFound? then Abort
    else if Netsh.CekIsKeyless(info.stdout) then Skip
    else
      var keyInfo := run(NetshShowProfileKey(name));
      if keyInfo.NotFound? then Abort
      else Append(Credential(name, Netsh.CekKeyContent(keyInfo.stdout)))
  }

  function CekSteps(run: Runner, names: seq<string>): (steps: seq<Step>)
    ensures |steps| == |names|
  {
    seq(|names|, k requires 0 <= k < |names| => CekStep(run, names[k]))
  }

  /** The names the script loops over: the `All User Profile     : (.*)\r` groups of the listing. */
  function CekNames(run: Runner): seq<string>
    requires run(NetshShowProfiles).Completed?
  {
    Netsh.CekProfileNames(run(NetshShowProfiles).stdout)
  }

  /** `wifi_list` when the loop is over, or `None` when the script has stopped on a missing `netsh`. */
  function CekList(run: Runner): Option<seq<Credential>> {
    if run(NetshShowProfiles).NotFound? then None
    else
      var r := Accumulate(CekSteps(run, CekNames(run)));
      if r.1 then None else Some(r.0)
  }

  /**
   * The text the script writes to `wifi.txt` (what it hands to `write`,
   * before any newline translation), or `None` when it stops before
   * writing. `opens` says whether `open("wifi.txt", "w")` succeeds, at once
   * or after the `fsutil` fallback; when it fails both times the exception
   * ends the script.
   */
  function CekFile(run: Runner, opens: bool): Option<string> {
    match CekList(run)
    case None => None
    case Some(list) => if opens then Some(Report.CekText(list)) else None
  }

  // ---------------------------------------------------------------------------
  // The script
  // ---------------------------------------------------------------------------

  /** `main`, from the `netsh` listing to the closing of `wifi.txt`: the text written to the file, if it is written. */
  method CekMain(run: Runner, opens: bool) returns (file: Option<string>)
    ensures file == CekFile(run, opens)
  {
    var listing := run(NetshShowProfiles);
    if listing.NotFound? {
      return None;
    }
    var names := Netsh.CekProfileNames(listing.stdout);
    var wifiList, crashed := CollectProfiles(run, names);
    if crashed || !opens {
      return None;
    }
    var text := WriteReport(wifiList);
    return Some(text);
  }

  /** The loop over the profile names; `crashed` when a `netsh` run raised, with the entries found until then. */
  method CollectProfiles(run: Runner, names: seq<string>) returns (wifiList: seq<Credential>, crashed: bool)
    ensures (wifiList, crashed) == Accumulate(CekSteps(run, names))
  {
    wifiList := [];
    var i := 0;
    while i < |names|
      invariant 0 <= i <= |names|
      invariant (wifiList, false) == Accumulate(CekSteps(run, names)[..i])
    {
      var stop, added := CollectProfile(run, names[i]);
      assert CekSteps(run, names)[i] == CekStep(run, names[i]);
      if stop {
        AccumulateAbortAt(CekSteps(run, names), i);
        return wifiList, true;
      }
      AccumulateNext(CekSteps(run, names), i);
      wifiList := wifiList + added;
      i := i + 1;
    }
    assert CekSteps(run, names)[..i] == CekSteps(run, names);
    return wifiList, false;
  }

  /** The body of the loop for one profile: the entry it appends, if any; `stop` when `netsh` cannot be run. */
  method CollectProfile(run: Runner, name: string) returns (stop: bool, added: seq<Credential>)
    ensures stop == CekStep(run, name).Abort?
    ensures added == Contribution(CekStep(run, name))
  {
    var profileInfo := run(NetshShowProfile(name));
    if profileInfo.NotFound? {
      return true, [];
    }
    if Netsh.CekIsKeyless(profileInfo.stdout) {
      return false, [];
    }
    var profileInfoPass := run(NetshShowProfileKey(name));
    if profileInfoPass.NotFound? {
      return true, [];
    }
    var password := Netsh.CekKeyContent(profileInfoPass.stdout);
    return false, [Credential(name, password)];
  }

  /** The writing loop: one `format_text` per entry, numbered from 1 and padded to two digits below 10. */
  method WriteReport(wifiList: seq<Credential>) returns (text: string)
    ensures text == Report.CekText(wifiList)
  {
    text := [];
    assert [] + Report.BlockLines(Report.Cek, wifiList[..0]) == [];
    var x := 0;
    while x < |wifiList|
      invariant 0 <= x <= |wifiList|
      invariant text == Unlines([] + Report.BlockLines(Report.Cek, wifiList[..x]))
    {
      var wifi := wifiList[x];
      text := text + (Report.NameLead(Report.Cek, x + 1) + ": " + wifi.ssid) + "\n"
              + (Report.PasswordLead(Report.Cek, x + 1) + ": " + Report.Shown(Report.Cek, wifi.password)) + "\n" + "\n";
      Report.NextEntryText(Report.Cek, [], wifiList, x + 1);
      x := x + 1;
    }
    assert wifiList[..x] == wifiList;
    assert [] + Report.BlockLines(Report.Cek, wifiList) == Report.BlockLines(Report.Cek, wifiList);
  }

  // ---------------------------------------------------------------------------
  // What the file holds
  // ---------------------------------------------------------------------------

  /** What the loop keeps for one profile: nothing when its key is absent, else its key content. */
  function CekEntryOf(run: Runner, name: string): seq<Credential>
    requires CekAnswers(run, name)
  {
    if Netsh.CekIsKeyless(run(NetshShowProfile(name)).stdout) then []
    else [Credential(name, Netsh.CekKeyContent(run(NetshShowProfileKey(name)).stdout))]
  }

  /** Both `netsh` queries about a profile run (whatever their exit codes). */
  predicate CekAnswers(run: Runner, name: string) {
    run(NetshShowProfile(name)).Completed? && run(NetshShowProfileKey(name)).Completed?
  }

  /** The reference: the profiles whose detail does not say the key is absent, each with its key content, in order. */
  function CekKeyed(run: Runner, names: seq<string>): seq<Credential>
    requires forall k :: 0 <= k < |names| ==> CekAnswers(run, names[k])
  {
    Flatten(seq(|names|, k requires 0 <= k < |names| => CekEntryOf(run, names[k])))
  }

  /** When `netsh` always runs, the loop never stops and keeps exactly the reference. */
  lemma CekAllAnswer(run: Runner)
    requires run(NetshShowProfiles).Completed?
    requires forall k :: 0 <= k < |CekNames(run)| ==> CekAnswers(run, CekNames(run)[k])
    ensures CekList(run) == Some(CekKeyed(run, CekNames(run)))
  {
    var names := CekNames(run);
    var steps := CekSteps(run, names);
    var parts := seq(|names|, k requires 0 <= k < |names| => CekEntryOf(run, names[k]));
    forall k | 0 <= k < |names|
      ensures !steps[k].Abort? && Contribution(steps[k]) == parts[k]
    {
      CekStepAnswers(run, names[k]);
    }
    AccumulateNoAbort(steps);
    AppendedFlatten(steps, parts);
  }

  /** For a profile whose queries run, the loop body keeps what the reference records. */
  lemma CekStepAnswers(run: Runner, name: string)
    requires CekAnswers(run, name)
    ensures !CekStep(run, name).Abort?
    ensures Contribution(CekStep(run, name)) == CekEntryOf(run, name)
  {
    if Netsh.CekIsKeyless(run(NetshShowProfile(name)).stdout) {
      assert CekStep(run, name) == Skip;
    } else {
      var c := Credential(name, Netsh.CekKeyContent(run(NetshShowProfileKey(name)).stdout));
      assert CekStep(run, name) == Append(c);
    }
  }

  /** A profile whose detail query cannot run ends the script before the file is opened. */
  lemma CekStopsOnMissingNetsh(run: Runner, opens: bool, k: nat)
    requires run(NetshShowProfiles).Completed?
    requires k < |CekNames(run)| && run(NetshShowProfile(CekNames(run)[k])).NotFound?
    ensures CekList(run) == None && CekFile(run, opens) == None
  {
    var steps := CekSteps(run, CekNames(run));
    assert steps[k] == Abort;
    AbortStops(steps, k);
  }

  /** The entry a profile adds carries its name and a key content without a newline. */
  lemma CekStepOneLine(run: Runner, name: string, c: Credential)
    requires '\n' !in name && CekStep(run, name) == Append(c)
    ensures c.ssid == name && Report.OneLine(Report.Cek, c)
  {
    var key := CekStepKey(run, name, c);
    assert '\n' !in Report.Shown(Report.Cek, key) by {
      if key.Some? {
        assert '\n' !in key.value;
      } else {
        assert Report.Shown(Report.Cek, key) == "None";
      }
    }
  }

  /** The entry a profile adds is its name with the key content of its `key=clear` query. */
  lemma CekStepKey(run: Runner, name: string, c: Credential) returns (key: Option<string>)
    requires CekStep(run, name) == Append(c)
    ensures c == Credential(name, key) && (key.Some? ==> '\n' !in key.value)
  {
    var keyInfo := run(NetshShowProfileKey(name));
    key := Netsh.CekKeyContent(keyInfo.stdout);
  }

  /** Every entry kept names a listed profile and fits on one line of the report. */
  lemma CekEntriesOneLine(run: Runner, c: Credential)
    requires run(NetshShowProfiles).Completed?
    requires c in Accumulate(CekSteps(run, CekNames(run))).0
    ensures c.ssid in CekNames(run) && Report.OneLine(Report.Cek, c)
  {
    var names := CekNames(run);
    var k := AccumulateEntry(CekSteps(run, names), c);
    CekStepOneLine(run, names[k], c);
  }

  /**
   * The text written to `wifi.txt` reads back as the list the loop kept:
   * every entry, in order, numbered from 1, with `None` for a profile
   * without key content.
   */
  lemma CekFileReadsBack(run: Runner, opens: bool)
    requires CekFile(run, opens).Some?
    ensures CekList(run).Some?
    ensures Report.ReadCek(CekFile(run, opens).value) == Report.ListedAs(Report.Cek, CekList(run).value)
  {
    var list := CekList(run).value;
    forall k | 0 <= k < |list|
      ensures Report.OneLine(Report.Cek, list[k])
    {
      CekEntriesOneLine(run, list[k]);
    }
    Report.CekRoundTrip(list);
  }

  /**
   * For a listing that names these profiles between header and closing lines,
   * all of whose queries run, the file lists exactly the profiles with a key,
   * in listing order.
   */
  lemma CekFromListing(run: Runner, header: seq<string>, names: seq<string>, trailer: seq<string>, opens: bool)
    requires Netsh.Untagged(header) && Netsh.Untagged(trailer)
    requires forall k :: 0 <= k < |names| ==> '\n' !in names[k]
    requires run(NetshShowProfiles).Completed?
    requires run(NetshShowProfiles).stdout == Netsh.NetshOutput(Netsh.ListingLines(header, names, trailer))
    requires forall k :: 0 <= k < |names| ==> CekAnswers(run, names[k])
    ensures CekList(run) == Some(CekKeyed(run, names))
    ensures opens ==> CekFile(run, opens) == Some(Report.CekText(CekKeyed(run, names)))
  {
    Netsh.CekProfileNamesRoundTrip(header, names, trailer);
    CekAllAnswer(run);
  }

  /**
   * For a profile not marked keyless whose `key=clear` output netsh writes
   * with the key on its `Key Content` line, the file gets that key.
   */
  lemma CekKeyFromNetsh(run: Runner, name: string, before: seq<string>, key: string, after: seq<string>)
    requires CekAnswers(run, name) && !Netsh.CekIsKeyless(run(NetshShowProfile(name)).stdout)
    requires run(NetshShowProfileKey(name)).stdout == Netsh.NetshOutput(Netsh.KeyLines(before, key, after))
    requires forall j :: 0 <= j < |before| ==> !Contains(before[j], Netsh.CekKeyPrefix)
    requires '\n' !in key
    ensures CekEntryOf(run, name) == [Credential(name, Some(key))]
  {
    Netsh.CekKeyContentFound(before, key, after);
  }
}
