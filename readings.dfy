/**
  The per-reading loop of `display_signal_strength`, `discover_wifi_networks`
  and `discover_and_connect_strongest_network`: each `(ssid, signal)` pair
  becomes the stripped SSID, the `int` signal and the distance estimate, and a
  reading whose conversion or distance yields `None` is skipped.
 */
module Readings {
  import opened Wrappers
  import opened Text
  import opened Parser
  import opened Adapter
  import opened SignalModel

  /** `P0`: the reference power at one metre, in dBm. */
  const RefPower: real := -69.0
  /** `N`: the path-loss exponent of open areas. */
  const PathLoss: real := 2.0

  /** What one reading is shown as: the distance is `10 ** exponent` metres. */
  datatype Estimate = Estimate(ssid: string, signal: int, exponent: real)

  /** One reading through the loop body, the signal taken as a percentage. */
  function EstimateOf(n: Network, p0: real, pn: real): (r: Option<Estimate>)
    requires IsNumeral(n.signal)
    ensures r.None? <==> pn == 0.0
    ensures r.Some? ==> r.value.ssid == Strip(n.ssid) && r.value.signal == SignalValue(n)
  {
    var signal := SignalValue(n);
    var rssi := PercentageToDbm(signal as real);
    match DistanceExponent(p0, rssi, pn)
    case None => None
    case Some(e) => Some(Estimate(Strip(n.ssid), signal, e))
  }

  /** The estimated distance is the one at which the path-loss model predicts the reading, taken as a percentage. */
  lemma EstimateOfInverts(n: Network, p0: real, pn: real)
    requires IsNumeral(n.signal) && pn != 0.0
    ensures var e := EstimateOf(n, p0, pn).value;
      ReceivedPower(p0, pn, e.exponent) == PercentageToDbm(SignalValue(n) as real)
  {
  }

  /** The outcome of the loop body for each reading. */
  function Attempted(ns: seq<Network>, p0: real, pn: real): (os: seq<Option<Estimate>>)
    requires Numeric(ns)
    ensures |os| == |ns|
  {
    seq(|ns|, q requires 0 <= q < |ns| => EstimateOf(ns[q], p0, pn))
  }

  /** The estimates that were not skipped, in order. */
  function Kept(os: seq<Option<Estimate>>): seq<Estimate> {
    if os == [] then []
    else
      var last := os[|os| - 1];
      Kept(os[..|os| - 1]) + (if last.Some? then [last.value] else [])
  }

  /** What the loop shows for the readings. */
  function Estimates(ns: seq<Network>, p0: real, pn: real): seq<Estimate>
    requires Numeric(ns)
  {
    Kept(Attempted(ns, p0, pn))
  }

  /** The loop itself: a reading whose distance cannot be computed is passed over with `continue`. */
  method EstimateAll(ns: seq<Network>, p0: real, pn: real) returns (out: seq<Estimate>)
    requires Numeric(ns)
    ensures out == Estimates(ns, p0, pn)
  {
    ghost var os := Attempted(ns, p0, pn);
    out := [];
    var i := 0;
    while i < |ns|
      invariant 0 <= i <= |ns|
      invariant out == Kept(os[..i])
    {
      var n := ns[i];
      assert os[..i + 1][..i] == os[..i];
      i := i + 1;
      var e := EstimateOf(n, p0, pn);
      if e.None? {
        continue;
      }
      out := out + [e.value];
    }
    assert os[..i] == os;
  }

  /** Nothing is skipped when every outcome is an estimate: they are kept one for one, in order. */
  lemma {:induction false} KeptAll(os: seq<Option<Estimate>>)
    requires forall q :: 0 <= q < |os| ==> os[q].Some?
    ensures |Kept(os)| == |os|
    ensures forall q :: 0 <= q < |os| ==> Some(Kept(os)[q]) == os[q]
  {
    if os != [] {
      var init := os[..|os| - 1];
      KeptAll(init);
      var prev := Kept(init);
      assert Kept(os) == prev + [os[|os| - 1].value];
      forall q | 0 <= q < |os| ensures Some((prev + [os[|os| - 1].value])[q]) == os[q] {
        if q < |init| {
          assert (prev + [os[|os| - 1].value])[q] == prev[q];
        }
      }
    }
  }

  /** Everything is skipped when no outcome is an estimate. */
  lemma {:induction false} KeptNone(os: seq<Option<Estimate>>)
    requires forall q :: 0 <= q < |os| ==> os[q].None?
    ensures Kept(os) == []
  {
    if os != [] {
      KeptNone(os[..|os| - 1]);
    }
  }

  /** With a non-zero path-loss exponent no reading is skipped: one estimate per reading, in order. */
  lemma EstimatesKeepAll(ns: seq<Network>, p0: real, pn: real)
    requires Numeric(ns) && pn != 0.0
    ensures |Estimates(ns, p0, pn)| == |ns|
    ensures forall q :: 0 <= q < |ns| ==> Some(Estimates(ns, p0, pn)[q]) == EstimateOf(ns[q], p0, pn)
  {
    KeptAll(Attempted(ns, p0, pn));
  }

  /** With a zero path-loss exponent every distance fails and every reading is skipped. */
  lemma EstimatesSkipAll(ns: seq<Network>, p0: real)
    requires Numeric(ns)
    ensures Estimates(ns, p0, 0.0) == []
  {
    KeptNone(Attempted(ns, p0, 0.0));
  }

  /** The unit the current-connection reading comes in: `Signal : NN%` on Windows, dBm on Linux and macOS. */
  datatype Unit = Percent | Dbm

  function CurrentUnit(p: Platform): Unit {
    if p.Windows? then Percent else Dbm
  }

  /**
    As written, the current-connection loop treats a dBm reading as a
    percentage: a Linux or macOS reading equal to the reference power `P0`,
    where the distance is one metre, comes out at `10 ** 3.0425` metres.
   */
  lemma DbmReadMisread(ssid: string)
    ensures EstimateOf(Network(ssid, "-69"), RefPower, PathLoss).value.exponent == 3.0425
  {
    var n := Network(ssid, "-69");
    assert n.signal[1..] == "69";
    assert DigitsValue("6") == 6;
    assert SignalValue(n) == -69;
  }

  /** The received power of a reading in its unit: a dBm reading is already one. */
  function Rssi(u: Unit, value: int): real {
    if u.Percent? then PercentageToDbm(value as real) else value as real
  }

  /** One current-connection reading, converted according to the unit it comes in. */
  function CurrentEstimate(p: Platform, n: Network, p0: real, pn: real): (r: Option<Estimate>)
    requires IsNumeral(n.signal)
    ensures r.None? <==> pn == 0.0
    ensures r.Some? ==>
      && r.value.ssid == Strip(n.ssid)
      && r.value.signal == SignalValue(n)
      && 10.0 * pn * r.value.exponent == p0 - Rssi(CurrentUnit(p), r.value.signal)
  {
    var signal := SignalValue(n);
    match DistanceExponent(p0, Rssi(CurrentUnit(p), signal), pn)
    case None => None
    case Some(e) => Some(Estimate(Strip(n.ssid), signal, e))
  }

  /** Converted by its unit, a reading at the reference power is one metre away on every platform. */
  lemma CurrentEstimateAtReference(p: Platform, ssid: string, signal: string)
    requires IsNumeral(signal) && Rssi(CurrentUnit(p), SignalValue(Network(ssid, signal))) == RefPower
    ensures CurrentEstimate(p, Network(ssid, signal), RefPower, PathLoss).value.exponent == 0.0
  {
    var e := CurrentEstimate(p, Network(ssid, signal), RefPower, PathLoss).value.exponent;
    assert 10.0 * PathLoss * e == 0.0;
  }

  /** On Windows the corrected conversion is the one the source applies. */
  lemma CurrentEstimateWindows(n: Network, p0: real, pn: real)
    requires IsNumeral(n.signal)
    ensures CurrentEstimate(Windows, n, p0, pn) == EstimateOf(n, p0, pn)
  {
  }
}
