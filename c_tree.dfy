/** The C revision at the top of the C directory: `transport_photon` of
    C/transport.c, which counts every pass of its loop and averages the
    optical depth and the distance per pass, and the simulation loop of
    C/plane.c that runs it for every packet, records the escape cosines in
    `MU` and reports the rounded average number of passes. */
module CTree {
  import opened Numeric
  import Maths
  import opened Random
  import opened Bins
  import opened EarlyPacket
  import opened EarlyTransport
  import opened BatchHistogram

  /** `MU_BINS` of C/plane.h, the size of the histogram arrays. */
  const MU_BINS: nat := 30

  /** `transport_photon(packetPtr, albedo, tau_max)` with at most `fuel`
      passes. The packet must start inside the slab (otherwise the loop does
      not run and the averages divide by a zero count). There is no
      absorption: on completion the packet has left through the top, with
      the direction of its last flight, which points up. `interactions` is
      the number of passes, re-emitting ones included (the reset done by a
      re-emission is overwritten), at least one; `avg_tau` is the mean
      optical depth per pass and `avg_L * tau_max == avg_tau`. */
  method TransportPhoton(p: Packet, rng: Rng, m: Maths.Math, albedo: real, tauMax: real, fuel: nat)
    returns (completed: bool, ghost flights: seq<Flight>)
    requires Maths.SqrtLaw(m) && Maths.LogLaw(m) && HalfOpenUnit(rng) && 0.0 < tauMax && 1 <= fuel
    requires 0.0 <= p.z <= 1.0 && Direction(p, m)
    modifies p, rng
    ensures completed <==> 1.0 < p.z
    ensures !completed ==> |flights| == fuel
    ensures FromSlab(flights) && Direction(p, m) && 0.0 <= p.z
    ensures 1 <= |flights| <= fuel && p.interactions == |flights|
    ensures flights[0].zPre == old(p.z) && flights[0].cosTheta == old(p.cosTheta)
    ensures p.avgTau == TauTotal(flights) / |flights| as real && 0.0 <= p.avgTau
    ensures p.avgL * tauMax == p.avgTau
    ensures completed ==>
              var last := flights[|flights| - 1];
              !last.scattered && last.zPost == p.z && last.cosTheta == p.cosTheta && 0.0 < p.cosTheta
    ensures OpenUnit(rng) && old(p.cosTheta) < 1.0 ==> p.cosTheta < 1.0
  {
    var intCount, lTot, tauTot;
    completed, intCount, lTot, tauTot, flights := Passes(p, rng, m, albedo, tauMax, InPlace, 0, fuel);
    p.avgL := lTot / intCount as real;
    p.avgTau := tauTot / intCount as real;
    p.interactions := intCount;
    RescaleQuotient(tauTot, tauMax, intCount as real);
    TauTotalNonNegative(flights);
    DivNonNegative(tauTot, intCount as real);
  }

  /** One pass of the simulation loop of C/plane.c: emit the packet, transport
      it, and hand back its escape cosine and interaction count. */
  method RunPacket(p: Packet, rng: Rng, m: Maths.Math, albedo: real, tauMax: real, fuel: nat)
    returns (done: bool, mu: real, inters: int, ghost run: seq<Flight>)
    requires Maths.SqrtLaw(m) && Maths.LogLaw(m) && HalfOpenUnit(rng) && 0.0 < tauMax && 1 <= fuel
    modifies p, rng
    ensures PacketRun(run, fuel, done, mu) && inters == |run|
    ensures mu == p.cosTheta && inters == p.interactions
    ensures run[0].cosTheta == m.sqrt(rng.draws(old(rng.pos)))
    ensures -1.0 < mu <= 1.0 && (done ==> 0.0 < mu)
    ensures OpenUnit(rng) ==> mu < 1.0
  {
    EmitPhoton(p, rng, m);
    ghost var u1 := rng.draws(old(rng.pos));
    assert p.cosTheta == m.sqrt(u1);
    done, run := TransportPhoton(p, rng, m, albedo, tauMax, fuel);
    mu := p.cosTheta;
    inters := p.interactions;
  }

  /** Every entry at least 1 makes the sum at least the length. */
  lemma {:induction false} SumAtLeastLength(s: seq<int>)
    requires forall k :: 0 <= k < |s| ==> 1 <= s[k]
    ensures |s| <= Sum(s)
  {
    if s != [] {
      SumAtLeastLength(s[..|s| - 1]);
    }
  }

  /** What the simulation loop keeps of one packet: its passes, whether its
      transport completed, its recorded cosine and its interaction count,
      with the bounds on the cosine (below 1 when every draw is below 1). */
  ghost predicate Recorded(run: seq<Flight>, fuel: nat, done: bool, mu: real, n: int, open: bool)
  {
    && PacketRun(run, fuel, done, mu) && n == |run|
    && -1.0 < mu <= 1.0 && (done ==> 0.0 < mu) && (open ==> mu < 1.0)
  }

  /** The simulation loop of C/plane.c (lines 78-105) and its average: for
      every one of the n_photons packets, emit, transport and record
      `MU[photon_count - 1] = costheta` and add the packet's interactions to
      the total; the average is `round(total / n_photons)`. Packet k's passes
      are `runs[k]`: its count is their number, and when its transport
      completed (`dones[k]`) its recorded cosine is that of its escaping pass. Every packet
      makes at least one pass, so the total is at least n_photons. When every
      transport completed, every recorded cosine is that of an escape, in
      (0,1]; it reaches 1 only when a draw is exactly 1. */
  method Simulate(nPhotons: nat, albedo: real, tauMax: real, rng: Rng, m: Maths.Math, fuel: nat)
    returns (completed: bool, mu: array<real>, total: int, average: int,
             ghost inters: seq<int>, ghost runs: seq<seq<Flight>>, ghost dones: seq<bool>)
    requires 1 <= nPhotons && 0.0 < tauMax && 1 <= fuel
    requires Maths.SqrtLaw(m) && Maths.LogLaw(m) && HalfOpenUnit(rng)
    modifies rng
    ensures fresh(mu) && mu.Length == nPhotons
    ensures |inters| == nPhotons && |runs| == nPhotons && |dones| == nPhotons
    ensures forall k :: 0 <= k < nPhotons ==> PacketRun(runs[k], fuel, dones[k], mu[k]) && inters[k] == |runs[k]|
    ensures completed <==> forall k :: 0 <= k < nPhotons ==> dones[k]
    ensures total == Sum(inters) && nPhotons <= total
    ensures average == Round(total as real / nPhotons as real)
    ensures forall i :: 0 <= i < nPhotons ==> -1.0 < mu[i] <= 1.0
    ensures completed ==> forall i :: 0 <= i < nPhotons ==> 0.0 < mu[i]
    ensures OpenUnit(rng) ==> forall i :: 0 <= i < nPhotons ==> mu[i] < 1.0
  {
    mu := new real[nPhotons];
    var packet := new Packet();
    total := 0;
    completed := true;
    inters := [];
    runs := [];
    dones := [];
    ghost var open := OpenUnit(rng);
    for photonCount := 1 to nPhotons + 1
      invariant |inters| == photonCount - 1 && |runs| == photonCount - 1 && |dones| == photonCount - 1
      invariant forall k :: 0 <= k < |inters| ==> Recorded(runs[k], fuel, dones[k], mu[k], inters[k], open)
      invariant completed <==> forall k :: 0 <= k < |dones| ==> dones[k]
      invariant total == Sum(inters)
    {
      var done, cosTheta, n;
      ghost var run;
      done, cosTheta, n, run := RunPacket(packet, rng, m, albedo, tauMax, fuel);
      mu[photonCount - 1] := cosTheta;
      completed := completed && done;
      assert (inters + [n])[..|inters|] == inters;
      total := total + n;
      inters := inters + [n];
      runs := runs + [run];
      dones := dones + [done];
    }
    forall k | 0 <= k < nPhotons
      ensures PacketRun(runs[k], fuel, dones[k], mu[k]) && inters[k] == |runs[k]|
      ensures -1.0 < mu[k] <= 1.0 && (dones[k] ==> 0.0 < mu[k]) && (open ==> mu[k] < 1.0)
    {
      assert Recorded(runs[k], fuel, dones[k], mu[k], inters[k], open);
    }
    SumAtLeastLength(inters);
    average := Round(total as real / nPhotons as real);
  }

  /** A packet emitted with the draw 1 (`rand()` returning RAND_MAX) points
      straight up, cos theta = 1; if its first flight takes it out of the
      slab it keeps that direction and is counted past the last bin. */
  lemma EmissionAtUnitDraw(p: Packet, m: Maths.Math, u2: real, muBins: nat)
    requires Maths.SqrtLaw(m) && EmittedWith(p, m, 1.0, u2) && 1 <= muBins
    ensures p.cosTheta == 1.0 && BinIndex(p.cosTheta, muBins) == muBins
  {
    Maths.SqrtOne(m);
    UnitCosineOverruns(muBins);
  }

  /** The simulation of C/plane.c with the draws strictly inside (0,1), the
      range of the generator later revisions use: every recorded cosine is
      below 1, so `bin_photons` on MU_BINS bins stays inside its arrays, its
      counts are the histogram of the escape cosines and total n_photons, and
      `calculate_intensity` gives every bin the intensity of its count. */
  method SimulateAndBin(nPhotons: nat, albedo: real, tauMax: real, rng: Rng, m: Maths.Math, fuel: nat)
    returns (completed: bool, mu: array<real>, hist: PhotonHist, intensity: array<real>, average: int)
    requires 1 <= nPhotons && 0.0 < tauMax && 1 <= fuel
    requires Maths.SqrtLaw(m) && Maths.LogLaw(m) && Maths.AcosLaw(m) && OpenUnit(rng)
    modifies rng
    ensures fresh(mu) && fresh(hist) && fresh(hist.bins) && fresh(intensity)
    ensures mu.Length == nPhotons && hist.bins.Length == MU_BINS && intensity.Length == MU_BINS
    ensures completed ==> forall i :: 0 <= i < nPhotons ==> 0.0 < mu[i] < 1.0
    ensures hist.bins[..] == Histogram(mu[..], MU_BINS)
    ensures Sum(hist.bins[..]) == nPhotons
    ensures forall i :: 0 <= i < MU_BINS ==>
              0.0 < BinCentre(i, MU_BINS) &&
              intensity[i] == Intensity(hist.bins[i] as real, MU_BINS, nPhotons, BinCentre(i, MU_BINS))
  {
    var total;
    ghost var inters, runs, dones;
    completed, mu, total, average, inters, runs, dones := Simulate(nPhotons, albedo, tauMax, rng, m, fuel);
    hist := new PhotonHist(MU_BINS);
    intensity := new real[MU_BINS];
    hist.BinPhotons(mu, nPhotons, MU_BINS, m);
    assert mu[..nPhotons] == mu[..];
    assert hist.bins[..MU_BINS] == hist.bins[..];
    hist.CalculateIntensity(intensity, nPhotons, MU_BINS, m);
  }
}
