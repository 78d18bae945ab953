/**
  The signal model of NetworkAnalyser.py: the linear percentage-to-dBm map and the
  log-distance path-loss inversion behind `calculate_distance`. Floats are idealised
  as reals, and the model keeps the exponent of the distance (its base-10 logarithm)
  rather than the power `10 ** exponent`.
 */
module SignalModel {
  import opened Wrappers

  /** The dBm assigned to a 100 % signal. */
  const MaxDbm: real := -20.0
  /** The dBm assigned to a 0 % signal. */
  const MinDbm: real := -85.0

  /** `percentage_to_dbm`: linear interpolation between MinDbm at 0 % and MaxDbm at 100 %. */
  function PercentageToDbm(p: real): (dbm: real)
    ensures (dbm - MinDbm) * 100.0 == (MaxDbm - MinDbm) * p
    ensures 0.0 <= p <= 100.0 ==> MinDbm <= dbm <= MaxDbm
  {
    MaxDbm - (MaxDbm - MinDbm) * (1.0 - p / 100.0)
  }

  lemma PercentageToDbmEndpoints()
    ensures PercentageToDbm(0.0) == MinDbm
    ensures PercentageToDbm(100.0) == MaxDbm
  {
  }

  lemma PercentageToDbmIncreasing(p: real, q: real)
    requires p < q
    ensures PercentageToDbm(p) < PercentageToDbm(q)
  {
  }

  /**
    The exponent `(p0 - pr) / (10 * n)` of `calculate_distance`, whose distance is
    `10 ** exponent` metres. A zero path-loss exponent makes the division fail, and
    the source then returns `None` instead of raising.
   */
  function DistanceExponent(p0: real, pr: real, n: real): (e: Option<real>)
    ensures e.None? <==> n == 0.0
    ensures e.Some? ==> 10.0 * n * e.value == p0 - pr
  {
    if n == 0.0 then None else Some((p0 - pr) / (10.0 * n))
  }

  /** Log-distance path loss: the power received at distance `10 ** e` metres. */
  function ReceivedPower(p0: real, n: real, e: real): real {
    p0 - 10.0 * n * e
  }

  /** The exponent inverts the path-loss model. */
  lemma ExponentInvertsPathLoss(p0: real, n: real, e: real)
    requires n != 0.0
    ensures DistanceExponent(p0, ReceivedPower(p0, n, e), n) == Some(e)
  {
    var d := DistanceExponent(p0, ReceivedPower(p0, n, e), n);
    assert 10.0 * n * d.value == 10.0 * n * e;
  }

  /** Measuring the reference power gives exponent 0, a distance of one metre. */
  lemma ExponentAtReference(p0: real, n: real)
    requires n != 0.0
    ensures DistanceExponent(p0, p0, n) == Some(0.0)
  {
  }

  /** With a positive path-loss exponent, the distance exceeds one metre exactly when the signal is weaker than the reference. */
  lemma ExponentPositiveIff(p0: real, pr: real, n: real)
    requires n > 0.0
    ensures DistanceExponent(p0, pr, n).value > 0.0 <==> pr < p0
  {
    var e := DistanceExponent(p0, pr, n).value;
    if e > 0.0 {
      assert 10.0 * n * e > 0.0;
    } else {
      assert 10.0 * n * e <= 0.0;
    }
  }

  /** A weaker signal gives a greater distance. */
  lemma ExponentDecreasing(p0: real, pr1: real, pr2: real, n: real)
    requires n > 0.0 && pr1 < pr2
    ensures DistanceExponent(p0, pr1, n).value > DistanceExponent(p0, pr2, n).value
  {
    var e1 := DistanceExponent(p0, pr1, n).value;
    var e2 := DistanceExponent(p0, pr2, n).value;
    assert 10.0 * n * (e1 - e2) == pr2 - pr1;
  }
}
