/**
  The two plotting loops' accumulators. Per poll cycle, the single-access-point
  plot appends a time and a signal per reading to two parallel lists; the
  all-networks plot appends one time per non-empty scan and, per network, the
  signal to that SSID's list in a dictionary, creating the list on first sight.
 */
module TimeSeries {
  import opened Text
  import opened Parser

  /** The `int` signals of the readings, in order. */
  function Values(ns: seq<Network>): (r: seq<int>)
    requires Numeric(ns)
    ensures |r| == |ns|
  {
    seq(|ns|, q requires 0 <= q < |ns| => SignalValue(ns[q]))
  }

  /** `times` and `signal_strengths` of `plot_signal_strength_over_time`. */
  class SignalHistory {
    var times: seq<real>
    var strengths: seq<int>

    /** The two lists are plotted against each other, so they must stay equally long. */
    ghost predicate Valid()
      reads this
    {
      |times| == |strengths|
    }

    constructor()
      ensures times == [] && strengths == [] && Valid()
    {
      times := [];
      strengths := [];
    }

    /**
      One poll cycle: each reading appends the elapsed time measured for it and
      its `int` signal. An empty scan appends nothing.
     */
    method Cycle(readings: seq<Network>, elapsed: seq<real>)
      requires Valid() && Numeric(readings) && |elapsed| == |readings|
      modifies this
      ensures Valid()
      ensures times == old(times) + elapsed
      ensures strengths == old(strengths) + Values(readings)
    {
      var i := 0;
      while i < |readings|
        invariant 0 <= i <= |readings|
        invariant times == old(times) + elapsed[..i]
        invariant strengths == old(strengths) + Values(readings)[..i]
      {
        times := times + [elapsed[i]];
        strengths := strengths + [SignalValue(readings[i])];
        assert elapsed[..i + 1] == elapsed[..i] + [elapsed[i]];
        assert Values(readings)[..i + 1] == Values(readings)[..i] + [SignalValue(readings[i])];
        i := i + 1;
      }
      assert elapsed[..i] == elapsed;
      assert Values(readings)[..i] == Values(readings);
    }
  }

  /** The list of `ssid` in `m`, or the empty list it is created as. */
  function Series(m: map<string, seq<int>>, ssid: string): seq<int> {
    if ssid in m then m[ssid] else []
  }

  /** One network's signal appended to its SSID's list, the unstripped SSID being the key. */
  function Add(m: map<string, seq<int>>, n: Network): (r: map<string, seq<int>>)
    requires IsNumeral(n.signal)
    ensures r.Keys == m.Keys + {n.ssid}
  {
    m[n.ssid := Series(m, n.ssid) + [SignalValue(n)]]
  }

  /** The dictionary after the networks of one scan are added in order. */
  function Record(m: map<string, seq<int>>, ns: seq<Network>): map<string, seq<int>>
    requires Numeric(ns)
  {
    if ns == [] then m
    else
      var init := ns[..|ns| - 1];
      assert forall q :: 0 <= q < |init| ==> init[q] == ns[q];
      Add(Record(m, init), ns[|ns| - 1])
  }

  /** The signals the scan holds for `ssid`, in scan order. */
  function SignalsOf(ns: seq<Network>, ssid: string): seq<int>
    requires Numeric(ns)
  {
    if ns == [] then []
    else
      var init := ns[..|ns| - 1];
      var last := ns[|ns| - 1];
      assert forall q :: 0 <= q < |init| ==> init[q] == ns[q];
      SignalsOf(init, ssid) + (if last.ssid == ssid then [SignalValue(last)] else [])
  }

  /** The SSIDs of a scan, exactly as captured. */
  function Ssids(ns: seq<Network>): set<string> {
    set q | 0 <= q < |ns| :: ns[q].ssid
  }

  /** `all_signals` and `times` of `plot_all_wifi_signal_strengths_over_time`. */
  class NetworkHistory {
    var times: seq<real>
    var signals: map<string, seq<int>>

    constructor()
      ensures times == [] && signals == map[]
    {
      times := [];
      signals := map[];
    }

    /**
      One poll cycle. A non-empty scan appends the elapsed time once and each
      network's signal to its SSID's list; an empty scan leaves everything as it was.
     */
    method Cycle(networks: seq<Network>, elapsed: real)
      requires Numeric(networks)
      modifies this
      ensures networks == [] ==> times == old(times)
      ensures networks != [] ==> times == old(times) + [elapsed]
      ensures signals == Record(old(signals), networks)
    {
      if networks == [] {
        return;
      }
      times := times + [elapsed];
      var i := 0;
      while i < |networks|
        invariant 0 <= i <= |networks|
        invariant times == old(times) + [elapsed]
        invariant signals == Record(old(signals), networks[..i])
      {
        var n := networks[i];
        if n.ssid !in signals {
          signals := signals[n.ssid := []];
        }
        signals := signals[n.ssid := signals[n.ssid] + [SignalValue(n)]];
        assert networks[..i + 1][..i] == networks[..i];
        i := i + 1;
      }
      assert networks[..i] == networks;
    }
  }

  /** A scan adds exactly its SSIDs as keys. */
  lemma {:induction false} RecordKeys(m: map<string, seq<int>>, ns: seq<Network>)
    requires Numeric(ns)
    ensures Record(m, ns).Keys == m.Keys + Ssids(ns)
  {
    if ns != [] {
      var init := ns[..|ns| - 1];
      RecordKeys(m, init);
      SsidsSnoc(ns);
    }
  }

  lemma SsidsSnoc(ns: seq<Network>)
    requires ns != []
    ensures Ssids(ns) == Ssids(ns[..|ns| - 1]) + {ns[|ns| - 1].ssid}
  {
    var init := ns[..|ns| - 1];
    forall x | x in Ssids(ns) ensures x in Ssids(init) + {ns[|ns| - 1].ssid} {
      var q :| 0 <= q < |ns| && ns[q].ssid == x;
      if q < |init| {
        assert init[q] == ns[q];
      }
    }
    forall x | x in Ssids(init) ensures x in Ssids(ns) {
      var q :| 0 <= q < |init| && init[q].ssid == x;
      assert ns[q] == init[q];
    }
  }

  /** Each SSID's list grows by the signals the scan holds for it, in scan order. */
  lemma {:induction false} RecordSeries(m: map<string, seq<int>>, ns: seq<Network>, ssid: string)
    requires Numeric(ns)
    ensures Series(Record(m, ns), ssid) == Series(m, ssid) + SignalsOf(ns, ssid)
  {
    if ns != [] {
      var init := ns[..|ns| - 1];
      RecordSeries(m, init, ssid);
    }
  }

  /** An SSID the scan does not hold keeps its list. */
  lemma {:induction false} SignalsOfAbsent(ns: seq<Network>, ssid: string)
    requires Numeric(ns) && ssid !in Ssids(ns)
    ensures SignalsOf(ns, ssid) == []
  {
    if ns != [] {
      var init := ns[..|ns| - 1];
      SsidsSnoc(ns);
      SignalsOfAbsent(init, ssid);
    }
  }

  lemma SeriesUnchanged(m: map<string, seq<int>>, ns: seq<Network>, ssid: string)
    requires Numeric(ns) && ssid !in Ssids(ns)
    ensures ssid in Record(m, ns) <==> ssid in m
    ensures Series(Record(m, ns), ssid) == Series(m, ssid)
  {
    RecordKeys(m, ns);
    RecordSeries(m, ns, ssid);
    SignalsOfAbsent(ns, ssid);
  }

  /** Every SSID's list is as long as `times`, as plotting each against `times` needs. */
  ghost predicate Aligned(times: seq<real>, m: map<string, seq<int>>) {
    forall ssid :: ssid in m ==> |m[ssid]| == |times|
  }

  /**
    After a non-empty scan the lists stay as long as `times` exactly when every
    SSID already seen occurs once in the scan, and every new SSID occurs as many
    times as there have been scans, counting this one: a network that vanishes,
    appears after the first scan, or shows up twice breaks the alignment.
   */
  lemma AlignedAfterCycleIff(times: seq<real>, m: map<string, seq<int>>, ns: seq<Network>, elapsed: real)
    requires Numeric(ns) && ns != [] && Aligned(times, m)
    ensures Aligned(times + [elapsed], Record(m, ns)) <==> Steady(times, m, ns)
  {
    if Steady(times, m, ns) {
      AlignedAfterCycleIf(times, m, ns, elapsed);
    }
    if Aligned(times + [elapsed], Record(m, ns)) {
      AlignedAfterCycleOnlyIf(times, m, ns, elapsed);
    }
  }

  /** Every SSID seen before occurs once in the scan, and every new one once per scan so far. */
  predicate Steady(times: seq<real>, m: map<string, seq<int>>, ns: seq<Network>)
    requires Numeric(ns)
  {
    && (forall ssid :: ssid in m ==> |SignalsOf(ns, ssid)| == 1)
    && (forall ssid :: ssid in Ssids(ns) && ssid !in m ==> |SignalsOf(ns, ssid)| == |times| + 1)
  }

  lemma AlignedAfterCycleOnlyIf(times: seq<real>, m: map<string, seq<int>>, ns: seq<Network>, elapsed: real)
    requires Numeric(ns) && Aligned(times, m) && Aligned(times + [elapsed], Record(m, ns))
    ensures Steady(times, m, ns)
  {
    var r := Record(m, ns);
    RecordKeys(m, ns);
    forall ssid | ssid in m || ssid in Ssids(ns) ensures |r[ssid]| == |Series(m, ssid)| + |SignalsOf(ns, ssid)| {
      RecordSeries(m, ns, ssid);
    }
  }

  lemma AlignedAfterCycleIf(times: seq<real>, m: map<string, seq<int>>, ns: seq<Network>, elapsed: real)
    requires Numeric(ns) && Aligned(times, m) && Steady(times, m, ns)
    ensures Aligned(times + [elapsed], Record(m, ns))
  {
    var r := Record(m, ns);
    RecordKeys(m, ns);
    forall ssid | ssid in r ensures |r[ssid]| == |times| + 1 {
      RecordSeries(m, ns, ssid);
    }
  }
}
