/** The escape-angle binning that every revision shares: a packet escaping
    with direction cosine mu goes to bin `abs((int)(mu * n_bins))`, and bin i
    is labelled by the centre cosine `i/n_bins + 0.5/n_bins`, whose arc cosine
    is the bin angle. This module holds the specification functions and the
    lemmas about them; the revisions' histogram operations are proved against
    them. */
module Bins {
  import opened Numeric
  import Maths

  /** The bin index of an escape cosine: `abs((int)(mu * n_bins))`. */
  function BinIndex(mu: real, nBins: nat): nat
  {
    Abs(Trunc(Scaled(mu, nBins)))
  }

  /** The scaled cosine `mu * n_bins` that the index truncates. */
  function Scaled(mu: real, nBins: nat): real
  {
    mu * nBins as real
  }

  /** A cosine is binned inside the histogram exactly when its magnitude is
      below 1; mu = 1 or -1 (or beyond) lands on index n_bins or further. */
  lemma BinIndexInRange(mu: real, nBins: nat)
    requires 1 <= nBins
    ensures BinIndex(mu, nBins) < nBins <==> -1.0 < mu < 1.0
  {
    BinIndexScaled(mu, nBins);
    ScaleWithin(mu, nBins as real, Scaled(mu, nBins));
  }

  /** The index is below n_bins exactly when the scaled cosine is inside (-n_bins, n_bins). */
  lemma BinIndexScaled(mu: real, nBins: nat)
    ensures BinIndex(mu, nBins) < nBins <==> -(nBins as real) < Scaled(mu, nBins) < nBins as real
  {
    AbsTruncBelow(Scaled(mu, nBins), nBins);
  }

  /** For 0 <= mu < 1 the bin index is the k whose range [k/n, (k+1)/n)
      contains mu, and only that k. */
  lemma BinIndexContains(mu: real, nBins: nat, k: nat)
    requires 1 <= nBins && 0.0 <= mu < 1.0
    ensures BinIndex(mu, nBins) == k <==>
              (k as real / nBins as real <= mu < (k + 1) as real / nBins as real)
  {
    var n := nBins as real;
    TruncIsFloor(mu * n, k);
    DivLe(k as real, mu, n);
    DivLe((k + 1) as real, mu, n);
  }

  /** The cosine 1 goes to bin nBins, one past the last of the nBins
      counts: `abs((int)(1 * mu_bins))` indexes past the end of the array. */
  lemma UnitCosineOverruns(muBins: nat)
    requires 1 <= muBins
    ensures BinIndex(1.0, muBins) == muBins
  {
    assert Scaled(1.0, muBins) == muBins as real;
  }

  /** For n > 0 and p = x * n, -n < p < n exactly when -1 < x < 1. */
  lemma ScaleWithin(x: real, n: real, p: real)
    requires 0.0 < n && p == x * n
    ensures p < n <==> x < 1.0
    ensures -n < p <==> -1.0 < x
  {
    assert p - n == (x - 1.0) * n;
    assert p + n == (x + 1.0) * n;
  }

  /** Width of one bin in cosine, `1.0 / n_bins`. */
  function BinWidth(nBins: nat): real
    requires 1 <= nBins
  {
    1.0 / nBins as real
  }

  /** Centre cosine of bin i as the sources compute it:
      `i * d_theta + half_width` with `d_theta = 1/n_bins`, `half_width = d_theta/2`. */
  function BinCentre(i: nat, nBins: nat): real
    requires 1 <= nBins
  {
    i as real * BinWidth(nBins) + 0.5 * BinWidth(nBins)
  }

  /** The centre written the other way, `(i + 0.5)/n_bins`. */
  lemma BinCentreIsMidpoint(i: nat, nBins: nat)
    requires 1 <= nBins
    ensures BinCentre(i, nBins) == (i as real + 0.5) / nBins as real
  {
  }

  /** Every bin centre lies strictly inside (0,1). */
  lemma BinCentreInside(i: nat, nBins: nat)
    requires 1 <= nBins && i < nBins
    ensures 0.0 < BinCentre(i, nBins) < 1.0
  {
    BinCentreIsMidpoint(i, nBins);
    var n := nBins as real;
    assert i as real + 0.5 < n;
    assert (i as real + 0.5) / n < n / n;
  }

  /** The centre lies inside its own bin, so binning it gives back i. */
  lemma BinCentreBinsToItself(i: nat, nBins: nat)
    requires 1 <= nBins && i < nBins
    ensures BinIndex(BinCentre(i, nBins), nBins) == i
  {
    BinCentreInside(i, nBins);
    BinCentreIsMidpoint(i, nBins);
    var n := nBins as real;
    var c := BinCentre(i, nBins);
    assert c * n == i as real + 0.5;
    TruncIsFloor(c * n, i);
  }

  /** Bin centres strictly increase with the index ... */
  lemma BinCentreIncreasing(i: nat, j: nat, nBins: nat)
    requires 1 <= nBins && i < j
    ensures BinCentre(i, nBins) < BinCentre(j, nBins)
  {
    BinCentreIsMidpoint(i, nBins);
    BinCentreIsMidpoint(j, nBins);
    var n := nBins as real;
    assert i as real + 0.5 < j as real + 0.5;
  }

  /** ... so the bin angles `acos(centre)` strictly decrease with the index. */
  lemma BinAngleDecreasing(m: Maths.Math, i: nat, j: nat, nBins: nat)
    requires Maths.AcosLaw(m) && 1 <= nBins && i < j < nBins
    ensures m.acos(BinCentre(j, nBins)) < m.acos(BinCentre(i, nBins))
  {
    BinCentreIncreasing(i, j, nBins);
    BinCentreInside(i, nBins);
    BinCentreInside(j, nBins);
  }

  /** Total of a sequence of integer counts. */
  function Sum(s: seq<int>): int
  {
    if s == [] then 0 else Sum(s[..|s| - 1]) + s[|s| - 1]
  }

  /** Total of a sequence of real weights. */
  function SumReal(s: seq<real>): real
  {
    if s == [] then 0.0 else SumReal(s[..|s| - 1]) + s[|s| - 1]
  }

  /** Adding d to one entry adds d to the total. */
  lemma {:induction false} SumUpdate(s: seq<int>, i: nat, d: int)
    requires i < |s|
    ensures Sum(s[i := s[i] + d]) == Sum(s) + d
  {
    var t := s[i := s[i] + d];
    if i == |s| - 1 {
      assert t[..|t| - 1] == s[..|s| - 1];
    } else {
      SumUpdate(s[..|s| - 1], i, d);
      assert t[..|t| - 1] == s[..|s| - 1][i := s[i] + d];
    }
  }

  /** Adding d to one real entry adds d to the total. */
  lemma {:induction false} SumRealUpdate(s: seq<real>, i: nat, d: real)
    requires i < |s|
    ensures SumReal(s[i := s[i] + d]) == SumReal(s) + d
  {
    var t := s[i := s[i] + d];
    if i == |s| - 1 {
      assert t[..|t| - 1] == s[..|s| - 1];
    } else {
      SumRealUpdate(s[..|s| - 1], i, d);
      assert t[..|t| - 1] == s[..|s| - 1][i := s[i] + d];
    }
  }

  /** A sequence of zeros totals zero. */
  lemma {:induction false} SumZeros(n: nat)
    ensures Sum(seq(n, _ => 0)) == 0
    ensures SumReal(seq(n, _ => 0.0)) == 0.0
  {
    if n > 0 {
      SumZeros(n - 1);
      assert seq(n, _ => 0)[..n - 1] == seq(n - 1, _ => 0);
      assert seq(n, _ => 0.0)[..n - 1] == seq(n - 1, _ => 0.0);
    }
  }

  /** Integer counts held as doubles, as in a `double *weight` histogram or a
      numpy float array. */
  function ToReals(s: seq<int>): (r: seq<real>)
    ensures |r| == |s|
  {
    seq(|s|, i requires 0 <= i < |s| => s[i] as real)
  }

  /** The real total of counts held as doubles is their integer total. */
  lemma {:induction false} SumRealOfToReals(s: seq<int>)
    ensures SumReal(ToReals(s)) == Sum(s) as real
  {
    if s != [] {
      SumRealOfToReals(s[..|s| - 1]);
      assert ToReals(s)[..|s| - 1] == ToReals(s[..|s| - 1]);
    }
  }

  /** Number of cosines in mus that fall in bin k. */
  function CountIn(mus: seq<real>, k: nat, nBins: nat): nat
  {
    if mus == [] then 0
    else CountIn(mus[..|mus| - 1], k, nBins) + (if BinIndex(mus[|mus| - 1], nBins) == k then 1 else 0)
  }

  /** The histogram of a whole batch of escape cosines: entry k is the number
      of cosines in bin k. */
  function Histogram(mus: seq<real>, nBins: nat): (h: seq<int>)
    ensures |h| == nBins
  {
    seq(nBins, k requires 0 <= k < nBins => CountIn(mus, k, nBins))
  }

  /** Binning one more cosine adds one to its bin of the histogram. */
  lemma HistogramSnoc(mus: seq<real>, mu: real, nBins: nat)
    requires BinIndex(mu, nBins) < nBins
    ensures Histogram(mus + [mu], nBins) ==
              Histogram(mus, nBins)[BinIndex(mu, nBins) := Histogram(mus, nBins)[BinIndex(mu, nBins)] + 1]
  {
    var ms := mus + [mu];
    assert ms[..|ms| - 1] == mus;
  }

  /** When every cosine has magnitude below 1 the counts add up to the number
      of cosines binned. */
  lemma {:induction false} HistogramTotal(mus: seq<real>, nBins: nat)
    requires 1 <= nBins
    requires forall i :: 0 <= i < |mus| ==> -1.0 < mus[i] < 1.0
    ensures Sum(Histogram(mus, nBins)) == |mus|
  {
    if mus == [] {
      assert Histogram(mus, nBins) == seq(nBins, _ => 0);
      SumZeros(nBins);
    } else {
      var front, mu := mus[..|mus| - 1], mus[|mus| - 1];
      assert mus == front + [mu];
      HistogramTotal(front, nBins);
      BinIndexInRange(mu, nBins);
      HistogramSnoc(front, mu, nBins);
      SumUpdate(Histogram(front, nBins), BinIndex(mu, nBins), 1);
    }
  }

  /** One more cosine of magnitude below 1 goes to a bin inside the
      histogram, and adding one to that bin gives the histogram of all of
      them. */
  lemma HistogramStep(mus: seq<real>, mu: real, nBins: nat)
    requires 1 <= nBins && -1.0 < mu < 1.0
    ensures BinIndex(mu, nBins) < nBins
    ensures Histogram(mus + [mu], nBins) ==
              Histogram(mus, nBins)[BinIndex(mu, nBins) := Histogram(mus, nBins)[BinIndex(mu, nBins)] + 1]
  {
    BinIndexInRange(mu, nBins);
    HistogramSnoc(mus, mu, nBins);
  }

  /** `HistogramStep` for counts held as floats: adding 1.0 to the bin of
      one more cosine of magnitude below 1 gives the histogram of all of
      them. */
  lemma HistogramRealSnoc(mus: seq<real>, mu: real, nBins: nat)
    requires 1 <= nBins && -1.0 < mu < 1.0
    ensures BinIndex(mu, nBins) < nBins
    ensures ToReals(Histogram(mus + [mu], nBins)) ==
              ToReals(Histogram(mus, nBins))[BinIndex(mu, nBins) := ToReals(Histogram(mus, nBins))[BinIndex(mu, nBins)] + 1.0]
  {
    HistogramStep(mus, mu, nBins);
  }

  /** The float total of the histogram of cosines of magnitude below 1 is
      their number. */
  lemma HistogramRealTotal(mus: seq<real>, nBins: nat)
    requires 1 <= nBins
    requires forall i :: 0 <= i < |mus| ==> -1.0 < mus[i] < 1.0
    ensures SumReal(ToReals(Histogram(mus, nBins))) == |mus| as real
  {
    SumRealOfToReals(Histogram(mus, nBins));
    HistogramTotal(mus, nBins);
  }

  /** The count of a bin depends only on the multiset of cosines. */
  lemma {:induction false} CountInPermutation(a: seq<real>, b: seq<real>, k: nat, nBins: nat)
    requires multiset(a) == multiset(b)
    ensures CountIn(a, k, nBins) == CountIn(b, k, nBins)
    decreases |a|
  {
    if a != [] {
      var x := a[|a| - 1];
      MultisetRemoveAt(a, |a| - 1);
      assert x in multiset(b);
      var j :| 0 <= j < |b| && b[j] == x;
      MultisetRemoveAt(b, j);
      assert a[..|a| - 1] + a[|a|..] == a[..|a| - 1];
      CountInPermutation(a[..|a| - 1], b[..j] + b[j + 1..], k, nBins);
      CountInRemove(b, j, k, nBins);
    }
  }

  /** Taking out the element at j takes one copy of it out of the multiset. */
  lemma MultisetRemoveAt(b: seq<real>, j: nat)
    requires j < |b|
    ensures b[j] in multiset(b)
    ensures multiset(b[..j] + b[j + 1..]) == multiset(b) - multiset{b[j]}
  {
    assert b == b[..j] + [b[j]] + b[j + 1..];
  }

  /** Taking one cosine out of a batch takes it out of its bin count. */
  lemma {:induction false} CountInRemove(b: seq<real>, j: nat, k: nat, nBins: nat)
    requires j < |b|
    ensures CountIn(b, k, nBins) ==
              CountIn(b[..j] + b[j + 1..], k, nBins) + (if BinIndex(b[j], nBins) == k then 1 else 0)
    decreases |b|
  {
    if j < |b| - 1 {
      var front := b[..|b| - 1];
      CountInRemove(front, j, k, nBins);
      assert front[..j] + front[j + 1..] == (b[..j] + b[j + 1..])[..|b| - 2];
      assert (b[..j] + b[j + 1..])[|b| - 2] == b[|b| - 1];
    } else {
      assert b[..j] + b[j + 1..] == b[..|b| - 1];
    }
  }

  /** An empty batch has every count zero. */
  lemma HistogramEmpty(nBins: nat)
    ensures Histogram([], nBins) == seq(nBins, _ => 0)
  {
  }

  /** The flux-normalised intensity of a bin holding `count` of `nPhotons`
      packets, whose centre cosine is mu: count * n_bins / (2 n_photons mu). */
  function Intensity(count: real, nBins: nat, nPhotons: nat, mu: real): real
    requires 1 <= nPhotons && 0.0 < mu
  {
    (count * nBins as real) / (2.0 * nPhotons as real * mu)
  }

  /** The C expression `(count * n_bins) / (2 * n_photons * mu)`, whose
      product is taken in integers and then widened, is the intensity of the
      count. */
  lemma IntegerScaledIntensity(count: int, nBins: nat, nPhotons: nat, mu: real)
    requires 1 <= nPhotons && 0.0 < mu
    ensures (count * nBins) as real / (2.0 * nPhotons as real * mu) == Intensity(count as real, nBins, nPhotons, mu)
  {
    ProductAsReal(count, nBins);
  }

  /** Intensities of non-negative counts are non-negative, and they grow with
      the count. */
  lemma IntensityMonotone(a: real, b: real, nBins: nat, nPhotons: nat, mu: real)
    requires 0.0 <= a <= b && 1 <= nPhotons && 0.0 < mu
    ensures 0.0 <= Intensity(a, nBins, nPhotons, mu) <= Intensity(b, nBins, nPhotons, mu)
  {
    var d := 2.0 * nPhotons as real * mu;
    assert 0.0 < 2.0 * nPhotons as real;
    assert 0.0 < d;
    var n := nBins as real;
    assert a * n <= b * n;
    DivNonNegative(a * n, d);
    DivNonNegative(b * n - a * n, d);
    assert (b * n - a * n) / d == b * n / d - a * n / d;
  }

  /** The histogram of a batch does not depend on the order of the batch. */
  lemma HistogramPermutation(a: seq<real>, b: seq<real>, nBins: nat)
    requires multiset(a) == multiset(b)
    ensures Histogram(a, nBins) == Histogram(b, nBins)
  {
    forall k | 0 <= k < nBins
      ensures Histogram(a, nBins)[k] == Histogram(b, nBins)[k]
    {
      CountInPermutation(a, b, k, nBins);
    }
  }
}