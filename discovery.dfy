/**
  `all_Networks` and the selection in `discover_and_connect_strongest_network`:
  the scan result for the platform, the strongest network by `int` signal as
  Python's `max` picks it, and the connect command for its stripped SSID.
 */
module Discovery {
  import opened Wrappers
  import opened Text
  import opened Parser
  import opened Layout
  import opened Adapter

  /**
    What `all_Networks` ends with: the pairs found, or an exception it does not
    catch. On an unsupported platform no command was started, so reading its
    output fails with an error outside the ones handled there.
   */
  datatype Outcome = Found(networks: seq<Network>) | Raised

  /**
    `all_Networks` given the platform, the command output and, on Windows, the
    pairs its own pattern extracts. An empty result raises `ValueError`, which is
    caught and turned into `[]`.
   */
  function AllNetworks(p: Platform, out: string, windowsPairs: seq<Network>): (r: Outcome)
    ensures r.Raised? <==> p.Unsupported?
    ensures p.Windows? ==> r == Found(windowsPairs)
    ensures (p.Linux? || p.Darwin?) ==> r == Found(FindAll(out))
  {
    if p.Unsupported? then Raised
    else
      var text := Strip(out);
      var networks := if p.Windows? then windowsPairs else FindAll(text);
      StripIgnored(out);
      if networks == [] then Found([]) else Found(networks)
  }

  /** On Linux and macOS the scan finds nothing exactly when no token is followed by whitespace and a digit. */
  lemma AllNetworksEmptyIff(p: Platform, out: string, windowsPairs: seq<Network>)
    requires p.Linux? || p.Darwin?
    ensures AllNetworks(p, out, windowsPairs) == Found([]) <==>
      forall i: nat, j: nat, k: nat, m: nat :: !Splits(out, i, j, k, m)
  {
    NoPairsIffNoPattern(out);
  }

  /** On Linux and macOS every network found has a token for SSID and a digit string for signal. */
  lemma AllNetworksWellFormed(p: Platform, out: string, windowsPairs: seq<Network>)
    requires p.Linux? || p.Darwin?
    ensures var ns := AllNetworks(p, out, windowsPairs).networks;
      forall q :: 0 <= q < |ns| ==> WellFormed(ns[q])
  {
    FindAllWellFormed(out);
  }

  /**
    The index `max(networks, key=...)` picks: scanning left to right, a later
    element replaces the best so far only when its key is strictly greater, so
    the first of the maximal elements wins.
   */
  function Strongest(ns: seq<Network>): (k: nat)
    requires |ns| > 0 && Numeric(ns)
    ensures k < |ns|
    ensures forall q :: 0 <= q < |ns| ==> SignalValue(ns[q]) <= SignalValue(ns[k])
    ensures forall q :: 0 <= q < k ==> SignalValue(ns[q]) < SignalValue(ns[k])
    decreases |ns|
  {
    if |ns| == 1 then 0
    else
      var init := ns[..|ns| - 1];
      assert forall q :: 0 <= q < |init| ==> init[q] == ns[q];
      var b := Strongest(init);
      if SignalValue(ns[b]) < SignalValue(ns[|ns| - 1]) then |ns| - 1 else b
  }

  /** Only one index is maximal and first among the maximal ones: the selection is determined. */
  lemma StrongestUnique(ns: seq<Network>, k: nat)
    requires |ns| > 0 && Numeric(ns) && k < |ns|
    requires forall q :: 0 <= q < |ns| ==> SignalValue(ns[q]) <= SignalValue(ns[k])
    requires forall q :: 0 <= q < k ==> SignalValue(ns[q]) < SignalValue(ns[k])
    ensures Strongest(ns) == k
  {
  }

  /**
    `discover_and_connect_strongest_network` past the scan: nothing when the
    scan is empty, otherwise the connect command for the stripped SSID of the
    strongest network.
   */
  function ConnectStrongest(p: Platform, ns: seq<Network>): (cmd: Option<string>)
    requires Numeric(ns)
    ensures cmd.Some? <==> ns != [] && !p.Unsupported?
    ensures cmd.Some? ==> ParseConnect(cmd.value) == Some((p, Strip(ns[Strongest(ns)].ssid)))
  {
    if ns == [] then None
    else ConnectCommand(p, Strip(ns[Strongest(ns)].ssid))
  }
}
