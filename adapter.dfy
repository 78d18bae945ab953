/**
  The per-platform connect command of `discover_and_connect_strongest_network`,
  built by plain string concatenation with the SSID inserted between double
  quotes, unescaped.
 */
module Adapter {
  import opened Wrappers

  /** The lower-cased `platform.system()`; any other value is Unsupported. */
  datatype Platform = Windows | Linux | Darwin | Unsupported

  /** The command text before the opening quote. */
  function ConnectPrefix(p: Platform): string
    requires !p.Unsupported?
  {
    match p
    case Windows => "netsh wlan connect name="
    case Linux => "nmcli dev wifi connect "
    case Darwin => "networksetup -setairportnetwork en0 "
  }

  /**
    The connect command for `ssid`. On an unsupported platform the source never
    assigns one (the scan has already failed there), so there is none.
   */
  function ConnectCommand(p: Platform, ssid: string): (cmd: Option<string>)
    ensures cmd.None? <==> p.Unsupported?
    ensures cmd.Some? ==> ParseConnect(cmd.value) == Some((p, ssid))
    ensures cmd.Some? ==> multiset(cmd.value)['"'] == 2 + multiset(ssid)['"']
  {
    if p.Unsupported? then None
    else
      var cmd := ConnectPrefix(p) + "\"" + ssid + "\"";
      ParseConnectForm(p, ssid);
      CountQuotes(p, ssid);
      Some(cmd)
  }

  /** Whether `cmd` has the connect form of platform `p`. */
  predicate HasForm(cmd: string, p: Platform)
    requires !p.Unsupported?
  {
    var head := ConnectPrefix(p) + "\"";
    |cmd| > |head| && cmd[..|head|] == head && cmd[|cmd| - 1] == '"'
  }

  /** Recovers the platform and the SSID from a connect command. */
  function ParseConnect(cmd: string): Option<(Platform, string)> {
    if HasForm(cmd, Windows) then Some((Windows, cmd[|ConnectPrefix(Windows)| + 1..|cmd| - 1]))
    else if HasForm(cmd, Linux) then Some((Linux, cmd[|ConnectPrefix(Linux)| + 1..|cmd| - 1]))
    else if HasForm(cmd, Darwin) then Some((Darwin, cmd[|ConnectPrefix(Darwin)| + 1..|cmd| - 1]))
    else None
  }

  /** A command of the form of `q` agrees with the prefix of `q` character by character. */
  lemma FormChar(cmd: string, q: Platform, k: nat)
    requires !q.Unsupported? && k < |ConnectPrefix(q)|
    ensures HasForm(cmd, q) ==> k < |cmd| && cmd[k] == ConnectPrefix(q)[k]
  {
    if HasForm(cmd, q) {
      var head := ConnectPrefix(q) + "\"";
      assert cmd[..|head|][k] == head[k];
    }
  }

  lemma ParseConnectForm(p: Platform, ssid: string)
    requires !p.Unsupported?
    ensures ParseConnect(ConnectPrefix(p) + "\"" + ssid + "\"") == Some((p, ssid))
  {
    var pre := ConnectPrefix(p);
    var cmd := pre + "\"" + ssid + "\"";
    assert cmd[..|pre| + 1] == pre + "\"";
    assert cmd[|pre| + 1..|cmd| - 1] == ssid;
    match p
    case Windows =>
    case Linux =>
      FormChar(cmd, Linux, 1);
      FormChar(cmd, Windows, 1);
    case Darwin =>
      FormChar(cmd, Darwin, 1);
      FormChar(cmd, Darwin, 3);
      FormChar(cmd, Windows, 3);
      FormChar(cmd, Linux, 1);
  }

  lemma NoQuoteInPrefix(p: Platform)
    requires !p.Unsupported?
    ensures '"' !in ConnectPrefix(p)
  {
  }

  lemma CountQuotes(p: Platform, ssid: string)
    requires !p.Unsupported?
    ensures multiset(ConnectPrefix(p) + "\"" + ssid + "\"")['"'] == 2 + multiset(ssid)['"']
  {
    var pre := ConnectPrefix(p);
    NoQuoteInPrefix(p);
    assert multiset(pre)['"'] == 0;
    assert multiset(pre + "\"" + ssid + "\"") == multiset(pre) + multiset("\"") + multiset(ssid) + multiset("\"");
  }
}
