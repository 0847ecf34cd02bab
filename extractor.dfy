/**
 * `WiFiExtractor`: the platform it runs on and the list of credentials its
 * extraction methods append to. Each method is proved to leave the list and
 * return what the matching function of `Extraction` says.
 */
module Extractor {
  import opened Text
  import opened Records
  import opened Steps
  import opened Extraction
  import Netsh
  import Nmcli
  import Keyfile
  import KnownNetworks
  import Report

  class WiFiExtractor {
    /** `platform.system()`, read once when the extractor is made. */
    const system: Platform
    /** The credentials found so far; every extraction method appends to it. */
    var wifiList: seq<Credential>

    /** `WiFiExtractor()`: `systemName` is what `platform.system()` returns. */
    constructor(systemName: string)
      ensures system == PlatformOf(systemName) && ValidPlatform(system) && wifiList == []
    {
      system := PlatformOf(systemName);
      wifiList := [];
    }

    /** `_extract_windows`. */
    method ExtractWindows(run: Runner) returns (result: seq<Credential>)
      modifies this
      ensures Outcome(wifiList, result) == WindowsOutcome(run, old(wifiList))
    {
      var listing := run(NetshShowProfiles);
      if !Succeeded(listing) {
        return [];
      }
      var names := Netsh.ProfileNames(Output(listing));
      if names == [] {
        return [];
      }
      var failed := CollectProfiles(run, names);
      if failed {
        return [];
      }
      return wifiList;
    }

    /**
     * The loop of `_extract_windows` over the profile names. `failed` is set
     * when a `netsh` call fails, which leaves the loop through the `except`.
     */
    method CollectProfiles(run: Runner, names: seq<string>) returns (failed: bool)
      modifies this
      ensures Finish(old(wifiList), WindowsSteps(run, names)) == Outcome(wifiList, if failed then [] else wifiList)
    {
      var i := 0;
      while i < |names|
        invariant 0 <= i <= |names|
        invariant wifiList == old(wifiList) + Accumulate(WindowsSteps(run, names)[..i]).0
        invariant !Accumulate(WindowsSteps(run, names)[..i]).1
      {
        var stop := NextProfile(run, names, i, old(wifiList));
        if stop {
          return true;
        }
        i := i + 1;
      }
      assert WindowsSteps(run, names)[..i] == WindowsSteps(run, names);
      FinishComplete(old(wifiList), WindowsSteps(run, names));
      return false;
    }

    /** The body of the loop of `_extract_windows`, for the profile at `i`; `start` is the list before the loop. */
    method NextProfile(run: Runner, names: seq<string>, i: nat, ghost start: seq<Credential>) returns (stop: bool)
      requires i < |names| && !Accumulate(WindowsSteps(run, names)[..i]).1
      requires wifiList == start + Accumulate(WindowsSteps(run, names)[..i]).0
      modifies this
      ensures stop ==> Finish(start, WindowsSteps(run, names)) == Outcome(wifiList, [])
      ensures !stop ==> !Accumulate(WindowsSteps(run, names)[..i + 1]).1
      ensures !stop ==> wifiList == start + Accumulate(WindowsSteps(run, names)[..i + 1]).0
    {
      stop := CollectProfile(run, names[i]);
      assert WindowsSteps(run, names)[i] == WindowsStep(run, names[i]);
      if stop {
        FinishStopped(start, WindowsSteps(run, names), i);
      } else {
        AccumulateNext(WindowsSteps(run, names), i);
        Extend(start, Accumulate(WindowsSteps(run, names)[..i]).0, Contribution(WindowsSteps(run, names)[i]));
      }
    }

    /**
     * One profile of `_extract_windows`: its detail, then, unless its key is
     * absent, its key. `stop` is set when either `netsh` call fails.
     */
    method CollectProfile(run: Runner, name: string) returns (stop: bool)
      modifies this
      ensures stop == WindowsStep(run, name).Abort?
      ensures wifiList == old(wifiList) + Contribution(WindowsStep(run, name))
    {
      var info := run(NetshShowProfile(name));
      if !Succeeded(info) {
        return true;
      }
      if Netsh.IsKeyless(Output(info)) {
        return false;
      }
      var keyInfo := run(NetshShowProfileKey(name));
      if !Succeeded(keyInfo) {
        return true;
      }
      wifiList := wifiList + [Credential(name, Netsh.KeyContent(Output(keyInfo)))];
      return false;
    }

    /** `_extract_linux_nmcli`. */
    method ExtractNmcli(run: Runner) returns (result: seq<Credential>)
      modifies this
      ensures Outcome(wifiList, result) == NmcliOutcome(run, old(wifiList))
    {
      if !Succeeded(run(WhichNmcli)) {
        return [];
      }
      var connections := run(NmcliConnections);
      if !Succeeded(connections) {
        return [];
      }
      var names := Nmcli.WirelessConnections(Output(connections));
      if names == [] {
        return [];
      }
      CollectPsks(run, names);
      return wifiList;
    }

    /** The loop of `_extract_linux_nmcli` over the wireless connections; a failing query is passed over. */
    method CollectPsks(run: Runner, names: seq<string>)
      modifies this
      ensures Finish(old(wifiList), NmcliSteps(run, names)) == Outcome(wifiList, wifiList)
    {
      var i := 0;
      while i < |names|
        invariant 0 <= i <= |names|
        invariant wifiList == old(wifiList) + Accumulate(NmcliSteps(run, names)[..i]).0
        invariant !Accumulate(NmcliSteps(run, names)[..i]).1
      {
        var name := names[i];
        NmcliNext(run, names, i);
        Extend(old(wifiList), Accumulate(NmcliSteps(run, names)[..i]).0, PskEntryOf(run, name));
        var details := run(NmcliPsk(name));
        if Succeeded(details) {
          var psk := Strip(Output(details));
          wifiList := wifiList + [Credential(name, if psk != [] then Some(psk) else None)];
        }
        i := i + 1;
      }
      assert NmcliSteps(run, names)[..i] == NmcliSteps(run, names);
      FinishComplete(old(wifiList), NmcliSteps(run, names));
    }

    /** `_extract_linux_config_files`, over the connection directory as `glob` lists it. */
    method ExtractConfigFiles(dir: ConfigDir) returns (result: seq<Credential>)
      modifies this
      ensures Outcome(wifiList, result) == ConfigOutcome(dir, old(wifiList))
    {
      if !dir.Listing? || dir.files == [] {
        return [];
      }
      var files := dir.files;
      var i := 0;
      while i < |files|
        invariant 0 <= i <= |files|
        invariant wifiList == old(wifiList) + Accumulate(ConfigSteps(files)[..i]).0
        invariant !Accumulate(ConfigSteps(files)[..i]).1
      {
        ConfigNext(files, i);
        Extend(old(wifiList), Accumulate(ConfigSteps(files)[..i]).0, KeyfileEntryOf(files[i]));
        if files[i].Read? {
          var found := Keyfile.KeyfileCredential(files[i].content);
          if found.Some? {
            wifiList := wifiList + [found.value];
          }
        }
        i := i + 1;
      }
      assert ConfigSteps(files)[..i] == ConfigSteps(files);
      FinishComplete(old(wifiList), ConfigSteps(files));
      return wifiList;
    }

    /** `_extract_linux`: nmcli, then the keyfiles, each tried while nothing has been returned. */
    method ExtractLinux(run: Runner, dir: ConfigDir) returns (result: seq<Credential>)
      modifies this
      ensures Outcome(wifiList, result) == LinuxOutcome(run, dir, old(wifiList))
    {
      result := ExtractNmcli(run);
      if result != [] {
        return;
      }
      result := ExtractConfigFiles(dir);
      if result != [] {
        return;
      }
      return [];
    }

    /**
     * `_extract_macos`. The networks are visited in whatever order the set
     * yields them; `order` records that order.
     */
    method ExtractMacos(run: Runner) returns (result: seq<Credential>, ghost order: seq<string>)
      modifies this
      ensures Enumerates(order, NameSet(MacosSsids(run)))
      ensures Outcome(wifiList, result) == MacosOutcome(run, order, old(wifiList))
    {
      order := [];
      var prefs := run(DefaultsKnownNetworks);
      if !Succeeded(prefs) {
        return [], order;
      }
      var ssids := KnownNetworks.KnownSsids(Output(prefs));
      if ssids == [] {
        var airport := run(AirportScan);
        if airport.NotFound? {
          return [], order;
        }
      }
      var failed;
      failed, order := CollectKeychain(run, NameSet(ssids));
      if failed {
        return [], order;
      }
      return wifiList, order;
    }

    /**
     * The loop of `_extract_macos` over `set(ssids)`, in the order `:|`
     * picks. A lookup that exits non-zero is passed over; `failed` is set
     * when the `security` tool cannot be run, which leaves through the outer
     * `except`.
     */
    method CollectKeychain(run: Runner, all: set<string>) returns (failed: bool, ghost order: seq<string>)
      modifies this
      ensures Enumerates(order, all)
      ensures Finish(old(wifiList), MacosSteps(run, order)) == Outcome(wifiList, if failed then [] else wifiList)
    {
      order := [];
      var remaining := all;
      while remaining != {}
        invariant remaining <= all
        invariant forall x :: x in order ==> x in all && x !in remaining
        invariant forall x :: x in all ==> x in order || x in remaining
        invariant forall i, j :: 0 <= i < j < |order| ==> order[i] != order[j]
        invariant wifiList == old(wifiList) + Accumulate(MacosSteps(run, order)).0
        invariant !Accumulate(MacosSteps(run, order)).1
        decreases remaining
      {
        var ssid :| ssid in remaining;
        remaining := remaining - {ssid};
        var stop := LookUpKeychain(run, ssid);
        if stop {
          ghost var rest := EnumerationOf(remaining);
          MacosStopsAt(run, order, ssid, rest);
          EnumerationJoin(order, ssid, rest, all, remaining);
          order := order + [ssid] + rest;
          return true, order;
        }
        MacosNext(run, order, ssid);
        Extend(old(wifiList), Accumulate(MacosSteps(run, order)).0, Contribution(MacosStep(run, ssid)));
        order := order + [ssid];
      }
      FinishComplete(old(wifiList), MacosSteps(run, order));
      return false, order;
    }

    /**
     * One network of `_extract_macos`: its password from the keychain,
     * stripped. `stop` is set when the `security` tool cannot be run.
     */
    method LookUpKeychain(run: Runner, ssid: string) returns (stop: bool)
      modifies this
      ensures stop == MacosStep(run, ssid).Abort?
      ensures wifiList == old(wifiList) + Contribution(MacosStep(run, ssid))
    {
      var password := run(KeychainPassword(ssid));
      if password.NotFound? {
        return true;
      }
      if password.exitCode == 0 {
        var shown := Strip(Output(password));
        wifiList := wifiList + [Credential(ssid, if shown != [] then Some(shown) else None)];
      }
      return false;
    }

    /** `extract_wifi_passwords`: the method for this platform; `[]` for any other. */
    method ExtractWifiPasswords(run: Runner, dir: ConfigDir) returns (result: seq<Credential>, ghost order: seq<string>)
      modifies this
      ensures system.Darwin? ==> Enumerates(order, NameSet(MacosSsids(run)))
      ensures Outcome(wifiList, result) == ExtractOutcome(system, run, dir, order, old(wifiList))
    {
      order := [];
      match system
      case Windows =>
        result := ExtractWindows(run);
      case Linux =>
        result := ExtractLinux(run, dir);
      case Darwin =>
        result, order := ExtractMacos(run);
      case Other(_) =>
        result := [];
    }

    /**
     * `save_to_file`: the text written to the file, or `false` when the file
     * cannot be opened for writing.
     */
    method SaveToFile(writable: bool) returns (ok: bool, written: string)
      ensures ok == writable
      ensures written == (if writable then Report.ExportText(PlatformName(system), wifiList) else [])
    {
      if !writable {
        return false, [];
      }
      var platform := PlatformName(system);
      written := Unlines(Report.ExportHeader(platform));
      assert Report.ExportHeader(platform) + Report.BlockLines(Report.Export, wifiList[..0]) == Report.ExportHeader(platform);
      var idx := 1;
      while idx <= |wifiList|
        invariant 1 <= idx <= |wifiList| + 1
        invariant written == Unlines(Report.ExportHeader(platform) + Report.BlockLines(Report.Export, wifiList[..idx - 1]))
      {
        var wifi := wifiList[idx - 1];
        written := written + (Report.NameLead(Report.Export, idx) + ": " + wifi.ssid) + "\n";
        written := written + (Report.PasswordLead(Report.Export, idx) + ": " + Report.Shown(Report.Export, wifi.password)) + "\n";
        written := written + "\n";
        Report.NextEntryText(Report.Export, Report.ExportHeader(platform), wifiList, idx);
        idx := idx + 1;
      }
      assert wifiList[..idx - 1] == wifiList;
      return true, written;
    }

    /** `display_results`: everything printed, each `print` ending its line. */
    method DisplayResults() returns (out: string)
      ensures out == Report.DisplayText(wifiList)
    {
      if wifiList == [] {
        return "\n" + "[!] No WiFi credentials found." + "\n";
      }
      out := Unlines(Report.DisplayHeader(|wifiList|));
      assert Report.DisplayHeader(|wifiList|) + Report.BlockLines(Report.Display, wifiList[..0]) == Report.DisplayHeader(|wifiList|);
      var idx := 1;
      while idx <= |wifiList|
        invariant 1 <= idx <= |wifiList| + 1
        invariant out == Unlines(Report.DisplayHeader(|wifiList|) + Report.BlockLines(Report.Display, wifiList[..idx - 1]))
      {
        var wifi := wifiList[idx - 1];
        out := out + (Report.NameLead(Report.Display, idx) + ": " + wifi.ssid) + "\n";
        out := out + (Report.PasswordLead(Report.Display, idx) + ": " + Report.Shown(Report.Display, wifi.password)) + "\n";
        out := out + "\n";
        Report.NextEntryText(Report.Display, Report.DisplayHeader(|wifiList|), wifiList, idx);
        idx := idx + 1;
      }
      assert wifiList[..idx - 1] == wifiList;
    }
  }
}
