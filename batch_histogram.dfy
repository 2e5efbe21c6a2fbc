/** The batch escape-angle histogram `struct photon_hist` of the early C
    revisions (C/calculate_intensity.c, plane_parallel_c/output.c and the
    prototype plane.c): fixed arrays of MU_BINS integer counts and bin angles
    in degrees, filled in one pass over the array of escape cosines. */
module BatchHistogram {
  import opened Numeric
  import opened Bins
  import Maths

  /** A bin angle as these revisions store it: acos of the bin centre, in
      degrees. */
  function ThetaDegrees(m: Maths.Math, i: nat, muBins: nat): real
    requires 0.0 < m.pi && 1 <= muBins
  {
    Maths.ToDegrees(m, m.acos(BinCentre(i, muBins)))
  }

  /** Converting a stored bin angle back to radians before the cosine, as
      `calculate_intensity` does, recovers the bin-centre cosine. */
  lemma CosOfThetaDegrees(m: Maths.Math, i: nat, muBins: nat)
    requires Maths.AcosLaw(m) && 1 <= muBins && i < muBins
    ensures m.cos(Maths.ToRadians(m, ThetaDegrees(m, i, muBins))) == BinCentre(i, muBins)
    ensures 0.0 < BinCentre(i, muBins)
  {
    BinCentreInside(i, muBins);
    Maths.CosOfStoredDegrees(m, BinCentre(i, muBins));
  }

  /** `struct photon_hist { double theta[MU_BINS]; int bins[MU_BINS]; }`. */
  class PhotonHist {
    /** `int bins[MU_BINS]`. */
    const bins: array<int>
    /** `double theta[MU_BINS]`. */
    const theta: array<real>

    /** A histogram with room for `capacity` (MU_BINS) bins. Its entries are
        whatever the memory held; `BinPhotons` overwrites the ones it uses. */
    constructor (capacity: nat)
      ensures bins.Length == capacity && theta.Length == capacity
      ensures fresh(bins) && fresh(theta)
    {
      bins := new int[capacity];
      theta := new real[capacity];
    }

    /** `bin_photons(hist, mu, n_photons, mu_bins)`: zero the first mu_bins
        counts and store their angles in degrees, then count every one of the
        n_photons cosines into bin `abs((int)(mu[i] * mu_bins))`. Afterwards
        count k is the number of cosines in bin k, the counts total n_photons,
        and the entries past mu_bins are untouched. mu_bins may not exceed
        MU_BINS, and every cosine must have magnitude below 1 for its index to
        be one of the mu_bins. */
    method BinPhotons(mu: array<real>, nPhotons: nat, muBins: nat, m: Maths.Math)
      requires 1 <= muBins <= bins.Length && muBins <= theta.Length
      requires nPhotons <= mu.Length && mu != theta
      requires forall i :: 0 <= i < nPhotons ==> -1.0 < mu[i] < 1.0
      requires 0.0 < m.pi
      modifies bins, theta
      ensures bins[..muBins] == Histogram(mu[..nPhotons], muBins)
      ensures Sum(bins[..muBins]) == nPhotons
      ensures forall i :: 0 <= i < muBins ==> theta[i] == ThetaDegrees(m, i, muBins)
      ensures forall k :: muBins <= k < bins.Length ==> bins[k] == old(bins[k])
      ensures forall k :: muBins <= k < theta.Length ==> theta[k] == old(theta[k])
      ensures mu[..] == old(mu[..])
    {
      for i := 0 to muBins
        invariant forall k :: 0 <= k < i ==> bins[k] == 0
        invariant forall k :: 0 <= k < i ==> theta[k] == ThetaDegrees(m, k, muBins)
        invariant forall k :: muBins <= k < bins.Length ==> bins[k] == old(bins[k])
        invariant forall k :: muBins <= k < theta.Length ==> theta[k] == old(theta[k])
      {
        bins[i] := 0;
        theta[i] := Maths.ToDegrees(m, m.acos(BinCentre(i, muBins)));
      }
      assert bins[..muBins] == seq(muBins, _ => 0);
      CountEscapes(bins, mu, nPhotons, muBins);
      HistogramTotal(mu[..nPhotons], muBins);
    }

    /** `calculate_intensity(intensity, hist, n_photons, mu_bins)`: only
        `intensity` is written; each of its first mu_bins entries is
        bins[i] * mu_bins / (2 n_photons cos(theta[i] * pi/180)), which, the
        stored angle being the bin centre's arc cosine in degrees, is the
        intensity of the count at the bin-centre cosine. */
    method CalculateIntensity(intensity: array<real>, nPhotons: nat, muBins: nat, m: Maths.Math)
      requires 1 <= muBins <= bins.Length && muBins <= theta.Length && muBins <= intensity.Length
      requires intensity != theta && 1 <= nPhotons && Maths.AcosLaw(m)
      requires forall i :: 0 <= i < muBins ==> theta[i] == ThetaDegrees(m, i, muBins)
      modifies intensity
      ensures forall i :: 0 <= i < muBins ==>
                0.0 < BinCentre(i, muBins) &&
                intensity[i] == Intensity(bins[i] as real, muBins, nPhotons, BinCentre(i, muBins))
      ensures intensity[muBins..] == old(intensity[muBins..])
    {
      for i := 0 to muBins
        invariant forall k :: 0 <= k < i ==>
                    0.0 < BinCentre(k, muBins) &&
                    intensity[k] == Intensity(bins[k] as real, muBins, nPhotons, BinCentre(k, muBins))
        invariant intensity[muBins..] == old(intensity[muBins..])
      {
        CosOfThetaDegrees(m, i, muBins);
        var c := m.cos(Maths.ToRadians(m, theta[i]));
        assert c == BinCentre(i, muBins);
        intensity[i] := Intensity(bins[i] as real, muBins, nPhotons, c);
      }
    }
  }

  /** The counting loop of `bin_photons`: starting from mu_bins zero counts,
      add each of the n_photons cosines to bin `abs((int)(mu[i] * mu_bins))`.
      Afterwards the counts are the histogram of the cosines. */
  method CountEscapes(bins: array<int>, mu: array<real>, nPhotons: nat, muBins: nat)
    requires 1 <= muBins <= bins.Length && nPhotons <= mu.Length
    requires forall i :: 0 <= i < nPhotons ==> -1.0 < mu[i] < 1.0
    requires bins[..muBins] == seq(muBins, _ => 0)
    modifies bins
    ensures bins[..muBins] == Histogram(mu[..nPhotons], muBins)
    ensures bins[muBins..] == old(bins[muBins..])
  {
    HistogramEmpty(muBins);
    assert mu[..0] == [];
    for i := 0 to nPhotons
      invariant bins[..muBins] == Histogram(mu[..i], muBins)
      invariant bins[muBins..] == old(bins[muBins..])
    {
      var binIndex := BinIndex(mu[i], muBins);
      HistogramStep(mu[..i], mu[i], muBins);
      assert mu[..i + 1] == mu[..i] + [mu[i]];
      ghost var before := bins[..];
      bins[binIndex] := bins[binIndex] + 1;
      PrefixUpdate(before, muBins, binIndex, before[binIndex] + 1);
    }
  }

  /** Updating an entry inside a prefix updates the prefix the same way. */
  lemma PrefixUpdate(s: seq<int>, n: nat, j: nat, v: int)
    requires j < n <= |s|
    ensures s[j := v][..n] == s[..n][j := v]
    ensures s[j := v][n..] == s[n..]
  {
  }
}
