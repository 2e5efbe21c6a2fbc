/** The object-oriented plane_parallel revision plane_parallel/plane_oo.py:
    a `Photon_Packet` class that transports itself with no absorption
    (every pass draws for scattering, scatters only inside the slab, then
    restarts a packet below the slab and marks one above it as escaped),
    `bin_photons` and `photon_moments`, and the simulation script that runs
    them. The draws are `np.random.rand()`, in [0,1), with 0 excluded. */
module PpPlaneOo {
  import opened Numeric
  import Maths
  import opened Random
  import opened Bins
  import opened BatchHistogram
  import opened EarlyTransport

  /** `n_photons = int(10e4)` of the simulation script. */
  const N_PHOTONS: nat := 100000
  /** `mu_bins = 20`. */
  const MU_BINS: nat := 20
  /** `tau_max = 7`. */
  const TAU_MAX: real := 7.0
  /** `albedo = 1`. */
  const ALBEDO: real := 1.0

  class PhotonPacket {
    /** `_coords`, a numpy array of three coordinates. */
    var coords: array<real>
    var cosTheta: real
    var sinTheta: real
    var phi: real
    var cosPhi: real
    var sinPhi: real
    var escaped: bool

    /** A direction as both samplers build it from draws in (0,1):
        -1 < cos theta < 1 with sin theta = sqrt(1 - cos^2 theta), and cos phi,
        sin phi those of the stored phi; a three-entry position. */
    ghost predicate Drawn(m: Maths.Math)
      reads this
    {
      && coords.Length == 3
      && -1.0 < cosTheta < 1.0 && sinTheta == Maths.SineOf(m, cosTheta)
      && cosPhi == m.cos(phi) && sinPhi == m.sin(phi)
    }

    /** The direction: cos theta, sin theta, phi, cos phi, sin phi. */
    function HeadingOf(): (real, real, real, real, real)
      reads this
    {
      (cosTheta, sinTheta, phi, cosPhi, sinPhi)
    }

    /** The direction `__init__` gives from the draws u1, u2:
        cos theta = sqrt(u1) with its sine, phi = 2 pi u2 with its cosine
        and sine. */
    ghost predicate InitWith(m: Maths.Math, u1: real, u2: real)
      reads this
    {
      && cosTheta == m.sqrt(u1) && sinTheta == Maths.SineOf(m, cosTheta)
      && phi == Maths.Azimuth(m, u2) && cosPhi == m.cos(phi) && sinPhi == m.sin(phi)
    }

    /** The direction `_scatter_packet` gives from the draws u1, u2:
        cos theta = 2 u1 - 1 with its sine, phi = 2 pi u2 with its cosine
        and sine. */
    ghost predicate ScatterWith(m: Maths.Math, u1: real, u2: real)
      reads this
    {
      && cosTheta == 2.0 * u1 - 1.0 && sinTheta == Maths.SineOf(m, cosTheta)
      && phi == Maths.Azimuth(m, u2) && cosPhi == m.cos(phi) && sinPhi == m.sin(phi)
    }

    /** `Photon_Packet()`: allocate and run `__init__`. */
    constructor (rng: Rng, m: Maths.Math)
      modifies rng
      ensures fresh(coords) && coords[..] == [0.0, 0.0, 0.0] && !escaped
      ensures rng.pos == old(rng.pos) + 2
      ensures InitWith(m, rng.draws(old(rng.pos)), rng.draws(old(rng.pos) + 1))
      ensures Drawn(m) || !(Maths.SqrtLaw(m) && OpenUnit(rng))
      ensures Maths.SqrtLaw(m) && OpenUnit(rng) ==> 0.0 < cosTheta
    {
      coords := new real[3];
      new;
      Init(rng, m);
    }

    /** `__init__()`: a fresh position array at the origin, cos theta =
        sqrt(rand), in (0,1), with sin theta from it, phi = 2 pi rand with its
        cosine and sine, and `_escaped` false. The transport calls it again to
        restart a packet below the slab. */
    method Init(rng: Rng, m: Maths.Math)
      modifies this, rng
      ensures fresh(coords) && coords[..] == [0.0, 0.0, 0.0] && !escaped
      ensures rng.pos == old(rng.pos) + 2
      ensures InitWith(m, rng.draws(old(rng.pos)), rng.draws(old(rng.pos) + 1))
      ensures Maths.SqrtLaw(m) && OpenUnit(rng) ==> Drawn(m) && 0.0 < cosTheta
    {
      var xi1 := rng.Uniform();
      var xi2 := rng.Uniform();
      coords := new real[3](_ => 0.0);
      cosTheta, sinTheta := m.sqrt(xi1), Maths.SineOf(m, m.sqrt(xi1));
      phi := Maths.Azimuth(m, xi2);
      cosPhi, sinPhi := m.cos(phi), m.sin(phi);
      escaped := false;
      if Maths.SqrtLaw(m) && OpenUnit(rng) {
        Maths.SqrtUnit(m, xi1);
      }
    }

    /** `_scatter_packet()`: cos theta = 2 rand - 1, in (-1,1), with sin theta
        from it, phi = 2 pi rand with its cosine and sine; the position and
        `_escaped` are kept. */
    method ScatterPacket(rng: Rng, m: Maths.Math)
      modifies this, rng
      ensures coords == old(coords) && escaped == old(escaped)
      ensures rng.pos == old(rng.pos) + 2
      ensures ScatterWith(m, rng.draws(old(rng.pos)), rng.draws(old(rng.pos) + 1))
      ensures OpenUnit(rng) && coords.Length == 3 ==> Drawn(m)
    {
      var xi1 := rng.Uniform();
      cosTheta := 2.0 * xi1 - 1.0;
      sinTheta := Maths.SineOf(m, cosTheta);
      var xi2 := rng.Uniform();
      phi := Maths.Azimuth(m, xi2);
      cosPhi := m.cos(phi);
      sinPhi := m.sin(phi);
    }

    /** The start of a pass: `tau = -np.log(np.random.rand())`,
        `L = tau / tau_max`, then the move along the direction. */
    method Advance(rng: Rng, m: Maths.Math, tauMax: real) returns (tau: real, L: real)
      requires Maths.LogLaw(m) && OpenUnit(rng) && 0.0 < tauMax && coords.Length == 3
      modifies coords, rng
      ensures rng.pos == old(rng.pos) + 1
      ensures tau == -1.0 * m.log(rng.draws(old(rng.pos))) && 0.0 <= tau && L == tau / tauMax && 0.0 <= L
      ensures coords[0] == old(coords[0]) + L * old(sinTheta) * old(cosPhi)
      ensures coords[1] == old(coords[1]) + L * old(sinTheta) * old(sinPhi)
      ensures coords[2] == old(coords[2]) + L * old(cosTheta)
    {
      tau := SampleTau(rng, m);
      L := tau / tauMax;
      DivNonNegative(tau, tauMax);
      coords[0] := coords[0] + L * sinTheta * cosPhi;
      coords[1] := coords[1] + L * sinTheta * sinPhi;
      coords[2] := coords[2] + L * cosTheta;
    }

    /** The rest of a pass, on the moved packet, in the source's order:
        draw, and scatter when the draw is below the albedo and the packet
        is inside the slab; then restart the packet when it is below the
        slab; then set `_escaped` when it is above it. A scattering takes
        the two draws after the albedo draw, and so does a restart, which
        never follows a scattering. */
    method Settle(rng: Rng, m: Maths.Math, albedo: real) returns (scattered: bool)
      requires Maths.SqrtLaw(m) && OpenUnit(rng) && Drawn(m)
      modifies this, rng
      ensures Drawn(m) && 0.0 <= coords[2]
      ensures coords == old(coords) || fresh(coords)
      ensures scattered <==> rng.draws(old(rng.pos)) < albedo && 0.0 <= old(coords[2]) <= 1.0
      ensures rng.pos == old(rng.pos) + (if scattered || old(coords[2]) < 0.0 then 3 else 1)
      ensures old(coords[2]) < 0.0 ==>
                fresh(coords) && coords[..] == [0.0, 0.0, 0.0] && !escaped && 0.0 < cosTheta &&
                InitWith(m, rng.draws(old(rng.pos) + 1), rng.draws(old(rng.pos) + 2))
      ensures 0.0 <= old(coords[2]) ==> coords == old(coords)
      ensures 1.0 < old(coords[2]) ==> escaped
      ensures 0.0 <= old(coords[2]) <= 1.0 ==> escaped == old(escaped)
      ensures scattered ==> ScatterWith(m, rng.draws(old(rng.pos) + 1), rng.draws(old(rng.pos) + 2))
      ensures 0.0 <= old(coords[2]) && !scattered ==> HeadingOf() == old(HeadingOf())
    {
      var xi := rng.Uniform();
      scattered := xi < albedo && 0.0 <= coords[2] <= 1.0;
      if scattered {
        ScatterPacket(rng, m);
      }
      if coords[2] < 0.0 {
        Init(rng, m);
      }
      if coords[2] > 1.0 {
        escaped := true;
      }
    }

    /** One pass of the while loop of `_transport_packet` from inside the
        slab. A pass that ends outside the slab is never scattered: one
        below it restarts the packet, one above it keeps the direction it
        escaped with, which points up. */
    method Pass(rng: Rng, m: Maths.Math, albedo: real, tauMax: real) returns (L: real, ghost f: Flight)
      requires Maths.SqrtLaw(m) && Maths.LogLaw(m) && OpenUnit(rng) && 0.0 < tauMax
      requires Drawn(m) && 0.0 <= coords[2] <= 1.0
      modifies this, coords, rng
      ensures Drawn(m) && 0.0 <= coords[2]
      ensures coords == old(coords) || fresh(coords)
      ensures f.zPre == old(coords[2]) && f.cosTheta == old(cosTheta) && 0.0 <= f.tau
      ensures f.tau == -1.0 * m.log(rng.draws(old(rng.pos))) && L == f.tau / tauMax
      ensures f.zPost == old(coords[2]) + L * old(cosTheta)
      ensures rng.pos == old(rng.pos) + 1 + (if f.scattered || f.zPost < 0.0 then 3 else 1)
      ensures f.scattered <==> rng.draws(old(rng.pos) + 1) < albedo && 0.0 <= f.zPost <= 1.0
      ensures f.zPost < 0.0 ==> !escaped
      ensures 0.0 <= f.zPost ==> coords[2] == f.zPost
      ensures PpPassEffect(this, m, rng.draws, old(rng.pos), L, f)
      ensures 1.0 < f.zPost ==> escaped && cosTheta == f.cosTheta && 0.0 < f.cosTheta
      ensures 0.0 <= f.zPost <= 1.0 ==> escaped == old(escaped)
    {
      var z0, c0 := coords[2], cosTheta;
      var tau;
      tau, L := Advance(rng, m, tauMax);
      ghost var x1, y1, z1 := coords[0], coords[1], coords[2];
      var scattered := Settle(rng, m, albedo);
      f := Flight(z0, z1, c0, tau, scattered);
      if 1.0 < z1 {
        PositiveFactor(L, c0);
      }
      assert 0.0 <= z1 ==> coords[0] == x1 && coords[1] == y1;
    }

    /** `_transport_packet(tau_max, albedo)` with at most `fuel` passes.
        There is no absorption: the loop ends only above the slab
        (`completed`), with the direction of the last flight, unscattered
        and pointing up; a packet started inside the slab and not escaped
        ends escaped exactly when it is above the slab. No pass ending
        outside the slab is scattered. */
    method TransportPacket(tauMax: real, albedo: real, rng: Rng, m: Maths.Math, fuel: nat)
      returns (completed: bool, ghost flights: seq<Flight>)
      requires Maths.SqrtLaw(m) && Maths.LogLaw(m) && OpenUnit(rng) && 0.0 < tauMax
      requires Drawn(m)
      modifies this, coords, rng
      ensures Drawn(m) && |flights| <= fuel && FromSlab(flights)
      ensures flights != [] ==> flights[0].zPre == old(coords[2]) && flights[0].cosTheta == old(cosTheta)
      ensures !old(escaped) && 0.0 <= old(coords[2]) <= 1.0 ==>
                (escaped <==> EscapeCosine(flights) != []) && (escaped ==> EscapeCosine(flights) == [cosTheta])
      ensures completed <==> !(0.0 <= coords[2] <= 1.0)
      ensures !completed ==> |flights| == fuel
      ensures 0.0 <= old(coords[2]) <= 1.0 && completed ==> flights != []
      ensures 0.0 <= old(coords[2]) ==> 0.0 <= coords[2]
      ensures !old(escaped) && 0.0 <= old(coords[2]) <= 1.0 ==> (escaped <==> 1.0 < coords[2])
      ensures forall k :: 0 <= k < |flights| ==> (flights[k].scattered ==> 0.0 <= flights[k].zPost <= 1.0)
      ensures 1.0 < coords[2] && flights != [] ==>
                var last := flights[|flights| - 1];
                last.zPost == coords[2] && last.cosTheta == cosTheta && !last.scattered && 0.0 < cosTheta < 1.0
    {
      flights := [];
      var left := fuel;
      while 0.0 <= coords[2] <= 1.0 && 0 < left
        invariant coords == old(coords) || fresh(coords)
        invariant Drawn(m) && |flights| + left == fuel && FromSlab(flights)
        invariant flights == [] ==> coords[2] == old(coords[2]) && cosTheta == old(cosTheta) && escaped == old(escaped)
        invariant flights != [] ==> 0.0 <= coords[2]
        invariant flights != [] ==> flights[0].zPre == old(coords[2]) && flights[0].cosTheta == old(cosTheta)
        invariant flights != [] && coords[2] <= 1.0 ==> EscapeCosine(flights) == []
        invariant flights != [] && !old(escaped) ==> (escaped <==> 1.0 < coords[2])
        invariant forall k :: 0 <= k < |flights| ==> (flights[k].scattered ==> 0.0 <= flights[k].zPost <= 1.0)
        invariant 1.0 < coords[2] && flights != [] ==>
                    var last := flights[|flights| - 1];
                    last.zPost == coords[2] && last.cosTheta == cosTheta && !last.scattered && 0.0 < cosTheta
        decreases left
      {
        left := left - 1;
        var L;
        ghost var f;
        L, f := Pass(rng, m, albedo, tauMax);
        flights := flights + [f];
      }
      completed := !(0.0 <= coords[2] <= 1.0);
    }
  }

  /** Where a pass leaves packet p, `start` being the position of its
      optical-depth draw: below the slab it is back at the origin with the
      direction of `__init__` from the two draws after the albedo draw;
      otherwise it has moved L along its old direction, and that direction
      is the one `_scatter_packet` gives from the same two draws when it
      scattered and the old one when it did not. */
  twostate predicate PpPassEffect(p: PhotonPacket, m: Maths.Math, draws: nat -> real, start: nat, L: real, f: Flight)
    reads p, p.coords
  {
    && (f.zPost < 0.0 ==>
          p.coords[..] == [0.0, 0.0, 0.0] && p.InitWith(m, draws(start + 2), draws(start + 3)))
    && (0.0 <= f.zPost ==>
          p.coords == old(p.coords) && p.coords.Length == 3 &&
          p.coords[0] == old(p.coords[0]) + L * old(p.sinTheta) * old(p.cosPhi) &&
          p.coords[1] == old(p.coords[1]) + L * old(p.sinTheta) * old(p.sinPhi))
    && (f.scattered ==> p.ScatterWith(m, draws(start + 2), draws(start + 3)))
    && (!f.scattered && 0.0 <= f.zPost ==> p.HeadingOf() == old(p.HeadingOf()))
  }

  /** `bin_photons(mu, mu_bins, n_photons)`: fresh arrays of mu_bins zero
      counts and of bin angles `arccos(centre) * (180/pi)`, in degrees, then
      every one of the first n_photons cosines counted into bin
      `abs(int(mu[i] * mu_bins))`. The counts are the histogram of those
      cosines and total n_photons. numpy raises for an index past the end,
      so every cosine must have magnitude below 1; `1/mu_bins` raises for
      mu_bins = 0. */
  method BinPhotons(mu: array<real>, muBins: nat, nPhotons: nat, m: Maths.Math)
    returns (muHist: array<real>, theta: array<real>)
    requires 1 <= muBins && nPhotons <= mu.Length && 0.0 < m.pi
    requires forall i :: 0 <= i < nPhotons ==> -1.0 < mu[i] < 1.0
    ensures fresh(muHist) && fresh(theta) && muHist.Length == muBins && theta.Length == muBins
    ensures forall i :: 0 <= i < muBins ==> theta[i] == ThetaDegrees(m, i, muBins)
    ensures muHist[..] == ToReals(Histogram(mu[..nPhotons], muBins))
    ensures SumReal(muHist[..]) == nPhotons as real
  {
    theta := new real[muBins](_ => 0.0);
    muHist := new real[muBins](_ => 0.0);
    var dTheta := 1.0 / muBins as real;
    var halfWidth := 0.5 * dTheta;
    for i := 0 to muBins
      modifies theta
      invariant forall k :: 0 <= k < i ==> theta[k] == ThetaDegrees(m, k, muBins)
    {
      assert i as real * dTheta + halfWidth == BinCentre(i, muBins);
      theta[i] := m.acos(i as real * dTheta + halfWidth) * (180.0 / m.pi);
    }
    CountCosines(mu, muHist, nPhotons, muBins);
  }

  /** The counting loop of `bin_photons`: `mu_hist[abs(int(mu[i] * mu_bins))] += 1`
      for each of the first n_photons cosines, from zeroed counts. */
  method CountCosines(mu: array<real>, muHist: array<real>, nPhotons: nat, muBins: nat)
    requires 1 <= muBins && nPhotons <= mu.Length && muHist.Length == muBins && mu != muHist
    requires forall i :: 0 <= i < nPhotons ==> -1.0 < mu[i] < 1.0
    requires forall k :: 0 <= k < muBins ==> muHist[k] == 0.0
    modifies muHist
    ensures muHist[..] == ToReals(Histogram(mu[..nPhotons], muBins))
    ensures SumReal(muHist[..]) == nPhotons as real
  {
    assert muHist[..] == ToReals(Histogram(mu[..0], muBins)) by {
      HistogramEmpty(muBins);
      assert mu[..0] == [];
    }
    for i := 0 to nPhotons
      invariant muHist[..] == ToReals(Histogram(mu[..i], muBins))
    {
      var j := Abs(Trunc(mu[i] * muBins as real));
      assert j == BinIndex(mu[i], muBins);
      HistogramRealSnoc(mu[..i], mu[i], muBins);
      assert mu[..i + 1] == mu[..i] + [mu[i]];
      muHist[j] := muHist[j] + 1.0;
    }
    HistogramRealTotal(mu[..nPhotons], muBins);
  }

  /** One entry of `photon_moments`: a count normalised by the histogram
      total and the cosine of its bin angle. */
  function Moment(count: real, muBins: nat, total: real, cosine: real): real
    requires total != 0.0 && cosine != 0.0
  {
    count * muBins as real / (2.0 * total * cosine)
  }

  /** `photon_moments(mu_bins, mu_hist, theta)`: a fresh array whose entry i
      is `mu_hist[i] * mu_bins / (2 * np.sum(mu_hist) * cos(theta[i] * pi/180))`,
      each count normalised by the histogram total rather than by a number
      of photons. numpy needs at least mu_bins entries in both arrays. */
  method PhotonMoments(muBins: nat, muHist: array<real>, theta: array<real>, m: Maths.Math)
    returns (intensity: array<real>)
    requires muBins <= muHist.Length && muBins <= theta.Length && SumReal(muHist[..]) != 0.0
    requires forall i :: 0 <= i < muBins ==> m.cos(Maths.ToRadians(m, theta[i])) != 0.0
    ensures fresh(intensity) && intensity.Length == muBins
    ensures forall i :: 0 <= i < muBins ==>
              intensity[i] == Moment(muHist[i], muBins, SumReal(muHist[..]), m.cos(Maths.ToRadians(m, theta[i])))
  {
    intensity := new real[muBins](_ => 0.0);
    // `np.sum(mu_hist)`, the same on every iteration.
    var total := SumReal(muHist[..]);
    for i := 0 to muBins
      invariant forall k :: 0 <= k < i ==>
                  intensity[k] == Moment(muHist[k], muBins, total, m.cos(Maths.ToRadians(m, theta[k])))
    {
      var c := m.cos(Maths.ToRadians(m, theta[i]));
      intensity[i] := Moment(muHist[i], muBins, total, c);
    }
  }

  /** With the bin angles of `BinPhotons` and the histogram it makes of
      n_photons cosines of magnitude below 1, whose total is n_photons, every
      moment is the intensity of its count at the bin-centre cosine, and is
      non-negative. */
  lemma MomentsAreIntensities(mus: seq<real>, muHist: seq<real>, theta: seq<real>, nPhotons: nat, m: Maths.Math)
    requires Maths.AcosLaw(m) && 1 <= nPhotons && |theta| == MU_BINS
    requires muHist == ToReals(Histogram(mus, MU_BINS)) && SumReal(muHist) == nPhotons as real
    requires forall i :: 0 <= i < MU_BINS ==> theta[i] == ThetaDegrees(m, i, MU_BINS)
    ensures forall i :: 0 <= i < MU_BINS ==>
              0.0 < BinCentre(i, MU_BINS) && m.cos(Maths.ToRadians(m, theta[i])) == BinCentre(i, MU_BINS) &&
              Moment(muHist[i], MU_BINS, SumReal(muHist), m.cos(Maths.ToRadians(m, theta[i]))) ==
                Intensity(muHist[i], MU_BINS, nPhotons, BinCentre(i, MU_BINS)) &&
              0.0 <= Intensity(muHist[i], MU_BINS, nPhotons, BinCentre(i, MU_BINS))
  {
    forall i | 0 <= i < MU_BINS
      ensures 0.0 < BinCentre(i, MU_BINS) && m.cos(Maths.ToRadians(m, theta[i])) == BinCentre(i, MU_BINS)
      ensures 0.0 <= Intensity(muHist[i], MU_BINS, nPhotons, BinCentre(i, MU_BINS))
    {
      CosOfThetaDegrees(m, i, MU_BINS);
      IntensityMonotone(0.0, muHist[i], MU_BINS, nPhotons, BinCentre(i, MU_BINS));
    }
  }

  /** The entry of mu a packet whose passes were `run` leaves: its escape
      cosine, the direction of its last pass out through the top, when it
      escaped, and the initial 0 otherwise. */
  function RecordedCosine(run: seq<Flight>): real
  {
    if EscapeCosine(run) != [] then EscapeCosine(run)[0] else 0.0
  }

  /** What one packet of the script did: at most `fuel` passes, the first
      from the origin, all from inside the slab, scattered only inside it;
      all `fuel` of them unless its transport finished, which happens
      exactly when it escaped, with a cosine in (0,1). */
  predicate PacketRun(run: seq<Flight>, done: bool, fuel: nat)
  {
    && |run| <= fuel && FromSlab(run) && (run != [] ==> run[0].zPre == 0.0)
    && (forall k :: 0 <= k < |run| ==> (run[k].scattered ==> 0.0 <= run[k].zPost <= 1.0))
    && (!done ==> |run| == fuel)
    && (done <==> EscapeCosine(run) != [])
    && (EscapeCosine(run) != [] ==> 0.0 < EscapeCosine(run)[0] < 1.0)
  }

  /** One packet of the simulation script: a fresh packet, its transport,
      and `mu[packet] = _costheta`, `phi[packet] = _phi` when it escaped;
      that cosine is the escape cosine of its passes. */
  method RunPacket(mu: array<real>, phi: array<real>, packet: nat, rng: Rng, m: Maths.Math, fuel: nat)
    returns (completed: bool, ghost run: seq<Flight>)
    requires Maths.SqrtLaw(m) && Maths.LogLaw(m) && OpenUnit(rng)
    requires packet < mu.Length && packet < phi.Length && mu != phi
    modifies mu, phi, rng
    ensures forall k :: 0 <= k < mu.Length && k != packet ==> mu[k] == old(mu[k])
    ensures forall k :: 0 <= k < phi.Length && k != packet ==> phi[k] == old(phi[k])
    ensures PacketRun(run, completed, fuel)
    ensures run != [] ==> run[0].cosTheta == m.sqrt(rng.draws(old(rng.pos)))
    ensures completed ==> mu[packet] == EscapeCosine(run)[0]
    ensures !completed ==> mu[packet] == old(mu[packet]) && phi[packet] == old(phi[packet])
  {
    var pp := new PhotonPacket(rng, m);
    completed, run := pp.TransportPacket(TAU_MAX, ALBEDO, rng, m, fuel);
    if pp.escaped {
      mu[packet] := pp.cosTheta;
      phi[packet] := pp.phi;
    }
  }

  /** The simulation script with at most `fuel` passes per packet: mu and
      phi start as zeros, every escaping packet records its escape cosine
      and azimuth, then `bin_photons` and `photon_moments`. Entry k of mu is
      what packet k's passes `runs[k]` record; a packet always escapes when
      its transport finishes, so then every cosine is in (0,1); those still
      in flight keep mu = 0. Either way every cosine is binned, the counts
      total n_photons, and every moment is the intensity of its count at
      the bin-centre cosine. */
  method Simulate(rng: Rng, m: Maths.Math, fuel: nat)
    returns (completed: bool, mu: array<real>, phi: array<real>, muHist: array<real>, theta: array<real>,
             intensity: array<real>, ghost runs: seq<seq<Flight>>, ghost dones: seq<bool>)
    requires Maths.Valid(m) && OpenUnit(rng)
    modifies rng
    ensures fresh(mu) && mu.Length == N_PHOTONS && fresh(phi) && phi.Length == N_PHOTONS
    ensures |runs| == N_PHOTONS && |dones| == N_PHOTONS
    ensures forall k :: 0 <= k < N_PHOTONS ==> PacketRun(runs[k], dones[k], fuel) && mu[k] == RecordedCosine(runs[k])
    ensures completed <==> false !in dones
    ensures completed ==> forall k :: 0 <= k < N_PHOTONS ==> 0.0 < mu[k] < 1.0
    ensures forall k :: 0 <= k < N_PHOTONS ==> mu[k] == 0.0 || 0.0 < mu[k] < 1.0
    ensures muHist.Length == MU_BINS && muHist[..] == ToReals(Histogram(mu[..], MU_BINS))
    ensures SumReal(muHist[..]) == N_PHOTONS as real
    ensures theta.Length == MU_BINS && intensity.Length == MU_BINS
    ensures forall i :: 0 <= i < MU_BINS ==>
              0.0 < BinCentre(i, MU_BINS) &&
              intensity[i] == Intensity(muHist[i], MU_BINS, N_PHOTONS, BinCentre(i, MU_BINS)) &&
              0.0 <= intensity[i]
  {
    completed, mu, phi, runs, dones := RunPackets(rng, m, fuel);
    muHist, theta := BinPhotons(mu, MU_BINS, N_PHOTONS, m);
    assert mu[..N_PHOTONS] == mu[..];
    MomentsAreIntensities(mu[..], muHist[..], theta[..], N_PHOTONS, m);
    intensity := PhotonMoments(MU_BINS, muHist, theta, m);
  }

  /** The packet loop of the simulation script: `mu = np.zeros(n_photons)`,
      `phi = np.zeros(n_photons)`, then one packet per entry; entry k of mu
      is what packet k's passes record, so a cosine in (0,1) for a packet
      that escaped and 0 for one still in flight. */
  method RunPackets(rng: Rng, m: Maths.Math, fuel: nat)
    returns (completed: bool, mu: array<real>, phi: array<real>, ghost runs: seq<seq<Flight>>, ghost dones: seq<bool>)
    requires Maths.SqrtLaw(m) && Maths.LogLaw(m) && OpenUnit(rng)
    modifies rng
    ensures fresh(mu) && mu.Length == N_PHOTONS && fresh(phi) && phi.Length == N_PHOTONS
    ensures |runs| == N_PHOTONS && |dones| == N_PHOTONS
    ensures forall k :: 0 <= k < N_PHOTONS ==> PacketRun(runs[k], dones[k], fuel) && mu[k] == RecordedCosine(runs[k])
    ensures completed <==> false !in dones
    ensures completed ==> forall k :: 0 <= k < N_PHOTONS ==> 0.0 < mu[k] < 1.0
    ensures forall k :: 0 <= k < N_PHOTONS ==> mu[k] == 0.0 || 0.0 < mu[k] < 1.0
  {
    mu := new real[N_PHOTONS](_ => 0.0);
    phi := new real[N_PHOTONS](_ => 0.0);
    completed := true;
    runs, dones := [], [];
    for packet := 0 to N_PHOTONS
      invariant |runs| == packet && |dones| == packet
      invariant forall k :: packet <= k < N_PHOTONS ==> mu[k] == 0.0
      invariant forall k :: 0 <= k < packet ==> PacketRun(runs[k], dones[k], fuel) && mu[k] == RecordedCosine(runs[k])
      invariant completed <==> false !in dones
    {
      var done;
      ghost var run;
      done, run := RunPacket(mu, phi, packet, rng, m, fuel);
      runs, dones := runs + [run], dones + [done];
      completed := completed && done;
    }
    RecordedBounds(runs, dones, fuel);
  }

  /** Every recorded cosine of packets that did what `PacketRun` says is 0
      or in (0,1), and in (0,1) when every transport finished. */
  lemma RecordedBounds(runs: seq<seq<Flight>>, dones: seq<bool>, fuel: nat)
    requires |runs| == |dones| && forall k :: 0 <= k < |runs| ==> PacketRun(runs[k], dones[k], fuel)
    ensures forall k :: 0 <= k < |runs| ==> RecordedCosine(runs[k]) == 0.0 || 0.0 < RecordedCosine(runs[k]) < 1.0
    ensures false !in dones ==> forall k :: 0 <= k < |runs| ==> 0.0 < RecordedCosine(runs[k]) < 1.0
  {
    forall k | 0 <= k < |runs|
      ensures dones[k] ==> 0.0 < RecordedCosine(runs[k]) < 1.0
    {
    }
    if false !in dones {
      forall k | 0 <= k < |runs|
        ensures dones[k]
      {
        assert dones[k] in dones;
      }
    }
  }
}
