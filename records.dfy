/**
 * The values the extractor produces and the outside world it reads: saved
 * credentials, the host platform, the external commands it runs and the
 * NetworkManager connection directory.
 */
module Records {

  datatype Option<T> = None | Some(value: T)

  /**
   * One saved network, the `{"ssid": ..., "password": ...}` dictionary of the
   * source. A `None` password (no key found) stays distinct from `Some("")`.
   */
  datatype Credential = Credential(ssid: string, password: Option<string>)

  /**
   * The value of `platform.system()`: the three systems the extractor knows,
   * and any other name, kept as it is.
   */
  datatype Platform = Windows | Linux | Darwin | Other(name: string)

  function PlatformName(p: Platform): string {
    match p
    case Windows => "Windows"
    case Linux => "Linux"
    case Darwin => "Darwin"
    case Other(name) => name
  }

  /** `Other` holds only names the extractor does not know. */
  predicate ValidPlatform(p: Platform) {
    p.Other? ==> p.name != "Windows" && p.name != "Linux" && p.name != "Darwin"
  }

  /** The platform `platform.system()` names. */
  function PlatformOf(name: string): (p: Platform)
    ensures ValidPlatform(p) && PlatformName(p) == name
  {
    if name == "Windows" then Windows
    else if name == "Linux" then Linux
    else if name == "Darwin" then Darwin
    else Other(name)
  }

  /** A valid platform is the one its name stands for. */
  lemma PlatformOfName(p: Platform)
    requires ValidPlatform(p)
    ensures PlatformOf(PlatformName(p)) == p
  {
  }

  /** The external commands the extractor runs, one constructor per argument list. */
  datatype Command =
    | NetshShowProfiles                    // netsh wlan show profiles
    | NetshShowProfile(name: string)       // netsh wlan show profiles <name>
    | NetshShowProfileKey(name: string)    // netsh wlan show profiles <name> key=clear
    | WhichNmcli                           // which nmcli
    | NmcliConnections                     // nmcli -t -f NAME,TYPE connection show
    | NmcliPsk(connection: string)         // nmcli -s -g 802-11-wireless-security.psk connection show <name>
    | DefaultsKnownNetworks                // defaults read .../com.apple.airport.preferences KnownNetworks
    | AirportScan                          // .../Apple80211.framework/.../airport -s
    | KeychainPassword(ssid: string)       // security find-generic-password -D "AirPort network password" -a <ssid> -w

  /**
   * What running a command gives: the process ran to completion with an exit
   * code and its standard output as text, or the executable was not found
   * (`FileNotFoundError`).
   */
  datatype CmdResult = Completed(exitCode: int, stdout: string) | NotFound

  /** `subprocess.run(..., check=True)` returns normally exactly in this case. */
  predicate Succeeded(r: CmdResult) {
    r.Completed? && r.exitCode == 0
  }

  /** The host: what each command prints when run. */
  type Runner = Command -> CmdResult

  /** One entry of the connection directory: its text, or an error on `open`/`read`. */
  datatype FileRead = Read(content: string) | ReadError

  /**
   * `/etc/NetworkManager/system-connections`: absent, present but not
   * readable, or readable with its entries in `glob("*")` order.
   */
  datatype ConfigDir = Missing | NoReadAccess | Listing(files: seq<FileRead>)

  /** `x if x else None`: a password read from a command, with empty output meaning there is none. */
  function NonEmpty(s: string): (p: Option<string>)
    ensures p.None? <==> s == []
    ensures p.Some? ==> p.value == s
  {
    if s == [] then None else Some(s)
  }
}
