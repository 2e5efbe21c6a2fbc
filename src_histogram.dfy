/** The escape-angle histogram `Histogram_t` of C/src/histogram.c: its own
    `n_bins` and three arrays of doubles, the escape weights, the bin angles
    and the intensities. */
module WeightHistogram {
  import opened Numeric
  import opened Bins
  import Maths

  class HistogramT {
    /** `n_bins`. */
    const nBins: nat
    /** The maths library the program is linked with. */
    const math: Maths.Math
    /** `double *weight`: escapes counted per bin. */
    const weight: array<real>
    /** `double *theta`: bin angle in radians. */
    const theta: array<real>
    /** `double *intensity`. */
    const intensity: array<real>
    /** The escape cosines binned so far, in order. */
    ghost var escapes: seq<real>

    /** The three arrays are distinct with n_bins elements, the weights are
        the histogram of the cosines binned so far, and every bin angle is the
        arc cosine of the bin centre. */
    ghost predicate Valid()
      reads this, weight, theta
    {
      && 1 <= nBins && Maths.AcosLaw(math)
      && weight.Length == nBins && theta.Length == nBins && intensity.Length == nBins
      && weight != theta && weight != intensity && theta != intensity
      && (forall i :: 0 <= i < nBins ==> theta[i] == math.acos(BinCentre(i, nBins)))
      && (forall k :: 0 <= k < |escapes| ==> -1.0 < escapes[k] < 1.0)
      && weight[..] == ToReals(Histogram(escapes, nBins))
    }

    /** `init_histogram`: zeroed weights and intensities and
        theta[i] = acos(i*d + d/2). */
    constructor InitHistogram(nBins: nat, math: Maths.Math)
      requires 1 <= nBins && Maths.AcosLaw(math)
      ensures Valid() && escapes == []
      ensures this.nBins == nBins && this.math == math
      ensures weight[..] == seq(nBins, _ => 0.0) && intensity[..] == seq(nBins, _ => 0.0)
      ensures fresh(weight) && fresh(theta) && fresh(intensity)
    {
      this.nBins := nBins;
      this.math := math;
      weight := new real[nBins](_ => 0.0);
      theta := new real[nBins](_ => 0.0);
      intensity := new real[nBins](_ => 0.0);
      new;
      for i := 0 to nBins
        invariant forall k :: 0 <= k < i ==> theta[k] == math.acos(BinCentre(k, nBins))
        invariant weight[..] == seq(nBins, _ => 0.0) && intensity[..] == seq(nBins, _ => 0.0)
      {
        theta[i] := math.acos(BinCentre(i, nBins));
      }
      escapes := [];
      HistogramEmpty(nBins);
      assert ToReals(seq(nBins, _ => 0)) == seq(nBins, _ => 0.0);
    }

    /** `bin_photon_to_histogram(hist, costheta)`: one more escape in bin
        `abs((int)(costheta * n_bins))`; the weights always total the number
        of escapes binned. */
    method BinPhotonToHistogram(cosTheta: real)
      requires Valid() && -1.0 < cosTheta < 1.0
      modifies this, weight
      ensures Valid() && escapes == old(escapes) + [cosTheta]
      ensures BinIndex(cosTheta, nBins) < nBins
      ensures weight[..] == old(weight[..])[BinIndex(cosTheta, nBins) := old(weight[BinIndex(cosTheta, nBins)]) + 1.0]
      ensures SumReal(weight[..]) == |escapes| as real
    {
      BinIndexInRange(cosTheta, nBins);
      var index := Abs(Trunc(cosTheta * nBins as real));
      assert index == BinIndex(cosTheta, nBins);
      HistogramSnoc(escapes, cosTheta, nBins);
      weight[index] := weight[index] + 1.0;
      escapes := escapes + [cosTheta];
      assert weight[..] == ToReals(Histogram(escapes, nBins));
      HistogramTotal(escapes, nBins);
      SumRealOfToReals(Histogram(escapes, nBins));
    }

    /** `convert_weight_to_intensity(hist)`: only `intensity` is written, each
        entry weight[i] * n_bins / (2 N_PHOTONS cos(theta[i])), which is the
        intensity of the bin's weight at the bin-centre cosine and never
        negative. */
    method ConvertWeightToIntensity(nPhotons: nat)
      requires Valid() && 1 <= nPhotons
      modifies intensity
      ensures forall i :: 0 <= i < nBins ==>
                0.0 < BinCentre(i, nBins) &&
                intensity[i] == Intensity(weight[i], nBins, nPhotons, BinCentre(i, nBins))
      ensures forall i :: 0 <= i < nBins ==> 0.0 <= intensity[i]
    {
      WeightsNonNegative();
      for i := 0 to nBins
        invariant forall k :: 0 <= k < i ==>
                    0.0 < BinCentre(k, nBins) &&
                    intensity[k] == Intensity(weight[k], nBins, nPhotons, BinCentre(k, nBins))
        invariant forall k :: 0 <= k < i ==> 0.0 <= intensity[k]
      {
        BinCentreInside(i, nBins);
        var mu := math.cos(theta[i]);
        assert mu == BinCentre(i, nBins);
        IntensityMonotone(0.0, weight[i], nBins, nPhotons, mu);
        intensity[i] := Intensity(weight[i], nBins, nPhotons, mu);
      }
    }

    /** Every weight is a count, so none is negative. */
    lemma WeightsNonNegative()
      requires Valid()
      ensures forall k :: 0 <= k < nBins ==> 0.0 <= weight[k]
    {
      forall k | 0 <= k < nBins
        ensures 0.0 <= weight[k]
      {
        assert weight[k] == ToReals(Histogram(escapes, nBins))[k];
      }
    }
  }
}
