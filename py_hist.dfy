/** The escape-angle histogram of the Python revisions Python/plane.py and
    Python/plane_oo.py, whose `init_hist`, `bin_photon` and intensity
    conversion are the same code in both files (only the argument order of
    `bin_photon` differs). The counts live in a numpy float array, so the
    model holds them as reals; the bin angles are in radians. */
module PyHist {
  import Maths
  import opened Bins

  /** `init_hist(n_bins)`: a fresh array of n_bins zero counts, the histogram
      of no escapes, and a fresh array of bin angles
      `arccos(i * d_theta + half_width)`, the arc cosine of each bin centre.
      `1 / n_bins` raises for n_bins = 0. */
  method InitHist(nBins: nat, m: Maths.Math) returns (hist: array<real>, theta: array<real>)
    requires 1 <= nBins
    ensures fresh(hist) && fresh(theta) && hist != theta
    ensures hist.Length == nBins && theta.Length == nBins
    ensures hist[..] == ToReals(Histogram([], nBins))
    ensures forall i :: 0 <= i < nBins ==> theta[i] == m.acos(BinCentre(i, nBins))
  {
    hist := new real[nBins](_ => 0.0);
    theta := new real[nBins](_ => 0.0);
    var dTheta := 1.0 / nBins as real;
    var halfWidth := 0.5 * dTheta;
    for i := 0 to nBins
      invariant forall k :: 0 <= k < i ==> theta[k] == m.acos(BinCentre(k, nBins))
      invariant forall k :: 0 <= k < nBins ==> hist[k] == 0.0
    {
      theta[i] := m.acos(i as real * dTheta + halfWidth);
    }
    assert hist[..] == seq(nBins, _ => 0.0);
    EmptyHistogram(nBins);
  }

  /** The histogram of no escapes, held as reals, is all zeros. */
  lemma EmptyHistogram(nBins: nat)
    ensures ToReals(Histogram([], nBins)) == seq(nBins, _ => 0.0)
  {
    HistogramEmpty(nBins);
  }

  /** `bin_photon`: `hist[abs(int(cos_theta * n_bins))] += 1` and nothing
      else. numpy raises for an index past the end, so the index must be one
      of the array's; with n_bins bins that is when |cos theta| < 1. */
  method BinPhoton(hist: array<real>, cosTheta: real, nBins: nat)
    requires BinIndex(cosTheta, nBins) < hist.Length
    modifies hist
    ensures hist[..] == old(hist[..])[BinIndex(cosTheta, nBins) := old(hist[BinIndex(cosTheta, nBins)]) + 1.0]
  {
    var i := BinIndex(cosTheta, nBins);
    hist[i] := hist[i] + 1.0;
  }

  /** `hist * n_bins / (2 * n_photons * np.cos(theta))`, elementwise. */
  function CalculateIntensity(hist: seq<real>, theta: seq<real>, nBins: nat, nPhotons: nat, m: Maths.Math): (r: seq<real>)
    requires |theta| == |hist| && 1 <= nPhotons
    requires forall i :: 0 <= i < |theta| ==> m.cos(theta[i]) != 0.0
    ensures |r| == |hist|
  {
    seq(|hist|, i requires 0 <= i < |hist| => hist[i] * nBins as real / (2.0 * nPhotons as real * m.cos(theta[i])))
  }

  /** Every bin centre is a positive cosine. */
  lemma BinCentresPositive(nBins: nat)
    requires 1 <= nBins
    ensures forall i :: 0 <= i < nBins ==> 0.0 < BinCentre(i, nBins)
  {
    forall i | 0 <= i < nBins
      ensures 0.0 < BinCentre(i, nBins)
    {
      BinCentreInside(i, nBins);
    }
  }

  /** With the bin angles of `InitHist`, the intensity conversion gives every
      bin the intensity of its count at its bin-centre cosine; non-negative
      counts give non-negative intensities. */
  lemma IntensityOfBins(hist: seq<real>, theta: seq<real>, nBins: nat, nPhotons: nat, m: Maths.Math)
    requires Maths.AcosLaw(m) && 1 <= nBins && 1 <= nPhotons
    requires |hist| == nBins && |theta| == nBins
    requires forall i :: 0 <= i < nBins ==> theta[i] == m.acos(BinCentre(i, nBins))
    ensures forall i :: 0 <= i < nBins ==> 0.0 < BinCentre(i, nBins) && m.cos(theta[i]) == BinCentre(i, nBins)
    ensures forall i :: 0 <= i < nBins ==>
              CalculateIntensity(hist, theta, nBins, nPhotons, m)[i] ==
              Intensity(hist[i], nBins, nPhotons, BinCentre(i, nBins))
    ensures (forall i :: 0 <= i < nBins ==> 0.0 <= hist[i]) ==>
              forall i :: 0 <= i < nBins ==> 0.0 <= CalculateIntensity(hist, theta, nBins, nPhotons, m)[i]
  {
    BinCentresPositive(nBins);
    forall i | 0 <= i < nBins
      ensures m.cos(theta[i]) == BinCentre(i, nBins)
    {
      BinCentreInside(i, nBins);
    }
    if forall i :: 0 <= i < nBins ==> 0.0 <= hist[i] {
      forall i | 0 <= i < nBins
        ensures 0.0 <= CalculateIntensity(hist, theta, nBins, nPhotons, m)[i]
      {
        IntensityMonotone(0.0, hist[i], nBins, nPhotons, BinCentre(i, nBins));
      }
    }
  }
}
