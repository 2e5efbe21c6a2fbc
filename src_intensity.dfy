/** The escape-angle histogram `Mu_hist` of C/src/intensity.c (the same code
    appears in C/source/intensity.c): `mu_bins` integer counts and the bin
    angles `theta`, both sized by the global `mu_bins`. */
module MuHistogram {
  import opened Numeric
  import opened Bins
  import Maths

  class MuHist {
    /** The global `mu_bins`. */
    const muBins: nat
    /** The maths library the program is linked with. */
    const math: Maths.Math
    /** `int *bins`: escape count per bin. */
    const bins: array<int>
    /** `double *theta`: bin angle in radians. */
    const theta: array<real>
    /** The escape cosines binned so far, in order. */
    ghost var escapes: seq<real>

    /** The counts are the histogram of the cosines binned so far, and every
        bin angle is the arc cosine of the bin centre. */
    ghost predicate Valid()
      reads this, bins, theta
    {
      && 1 <= muBins && Maths.AcosLaw(math)
      && bins.Length == muBins && theta.Length == muBins
      && (forall i :: 0 <= i < muBins ==> theta[i] == math.acos(BinCentre(i, muBins)))
      && (forall k :: 0 <= k < |escapes| ==> -1.0 < escapes[k] < 1.0)
      && bins[..] == Histogram(escapes, muBins)
    }

    /** `init_photon_hist`: mu_bins zero counts, theta[i] = acos(i*d + d/2). */
    constructor InitPhotonHist(muBins: nat, math: Maths.Math)
      requires 1 <= muBins && Maths.AcosLaw(math)
      ensures Valid() && escapes == []
      ensures this.muBins == muBins && this.math == math
      ensures bins[..] == seq(muBins, _ => 0)
      ensures fresh(bins) && fresh(theta)
    {
      this.muBins := muBins;
      this.math := math;
      bins := new int[muBins];
      theta := new real[muBins];
      new;
      for i := 0 to muBins
        invariant forall k :: 0 <= k < i ==> bins[k] == 0
        invariant forall k :: 0 <= k < i ==> theta[k] == math.acos(BinCentre(k, muBins))
      {
        bins[i] := 0;
        theta[i] := math.acos(BinCentre(i, muBins));
      }
      escapes := [];
      assert bins[..] == seq(muBins, _ => 0);
      HistogramEmpty(muBins);
    }

    /** `bin_photon(hist, cos_theta)`: one more escape in bin
        `abs((int)(cos_theta * mu_bins))`; the bins always total the number of
        escapes binned. */
    method BinPhoton(cosTheta: real)
      requires Valid() && -1.0 < cosTheta < 1.0
      modifies this, bins
      ensures Valid() && escapes == old(escapes) + [cosTheta]
      ensures BinIndex(cosTheta, muBins) < muBins
      ensures bins[..] == old(bins[..])[BinIndex(cosTheta, muBins) := old(bins[BinIndex(cosTheta, muBins)]) + 1]
      ensures Sum(bins[..]) == |escapes|
    {
      BinIndexInRange(cosTheta, muBins);
      var binIndex := Abs(Trunc(cosTheta * muBins as real));
      assert binIndex == BinIndex(cosTheta, muBins);
      HistogramSnoc(escapes, cosTheta, muBins);
      bins[binIndex] := bins[binIndex] + 1;
      escapes := escapes + [cosTheta];
      assert bins[..] == Histogram(escapes, muBins);
      HistogramTotal(escapes, muBins);
    }

    /** `calculate_intensity(hist, intensity)`: every bin's count scaled to a
        flux-normalised intensity, bins[i] * mu_bins / (2 n_photons cos(theta[i])).
        Since cos(theta[i]) is the bin-centre cosine, this is the intensity of
        the count at the centre cosine, never negative. */
    method CalculateIntensity(intensity: array<real>, nPhotons: nat)
      requires Valid() && intensity.Length == muBins && intensity != theta
      requires 1 <= nPhotons
      modifies intensity
      ensures forall i :: 0 <= i < muBins ==>
                0.0 < BinCentre(i, muBins) &&
                intensity[i] == Intensity(bins[i] as real, muBins, nPhotons, BinCentre(i, muBins))
      ensures forall i :: 0 <= i < muBins ==> 0.0 <= intensity[i]
    {
      for i := 0 to muBins
        invariant forall k :: 0 <= k < i ==>
                    0.0 < BinCentre(k, muBins) &&
                    intensity[k] == Intensity(bins[k] as real, muBins, nPhotons, BinCentre(k, muBins))
        invariant forall k :: 0 <= k < i ==> 0.0 <= intensity[k]
      {
        BinCentreInside(i, muBins);
        var c := math.cos(theta[i]);
        assert c == BinCentre(i, muBins);
        assert bins[i] == Histogram(escapes, muBins)[i];
        IntensityMonotone(0.0, bins[i] as real, muBins, nPhotons, c);
        IntegerScaledIntensity(bins[i], muBins, nPhotons, c);
        intensity[i] := (bins[i] * muBins) as real / (2.0 * nPhotons as real * c);
      }
    }
  }
}
