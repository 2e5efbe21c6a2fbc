/** The single-file prototype plane.c: its parameters are compile-time
    constants, its packet has no counters, and its `scatter_photon` scatters
    only strictly below the top of the slab (`z < 1.0`). The histogram is
    `BatchHistogram.PhotonHist` sized MU_BINS and filled from N_PHOTONS
    escape cosines. */
module Prototype {
  import opened Numeric
  import Maths
  import opened Random
  import opened Bins
  import opened BatchHistogram
  import opened EarlyTransport
  import EarlyPacket

  /** `#define N_PHOTONS 1000000`. */
  const N_PHOTONS: nat := 1000000
  /** `#define TAU_MAX 7`. */
  const TAU_MAX: real := 7.0
  /** `#define ALBEDO 1`. */
  const ALBEDO: real := 1.0
  /** `#define MU_BINS 10`. */
  const MU_BINS: nat := 10

  /** `struct photon` of plane.c: position and direction only. */
  class Photon {
    var x: real
    var y: real
    var z: real
    var cosTheta: real
    var sinTheta: real
    var cosPhi: real
    var sinPhi: real
    var phi: real

    /** A packet whose fields hold whatever the memory held. */
    constructor ()
    {
    }

    /** The struct assignment `*packetPtr = *q`. */
    method CopyFrom(q: Photon)
      modifies this
      ensures x == q.x && y == q.y && z == q.z
      ensures cosTheta == q.cosTheta && sinTheta == q.sinTheta
      ensures cosPhi == q.cosPhi && sinPhi == q.sinPhi && phi == q.phi
    {
      x, y, z := q.x, q.y, q.z;
      cosTheta, sinTheta := q.cosTheta, q.sinTheta;
      cosPhi, sinPhi, phi := q.cosPhi, q.sinPhi, q.phi;
    }
  }

  /** A direction the packet can hold when the draws lie in (0,1]. */
  ghost predicate Direction(p: Photon, m: Maths.Math)
    reads p
  {
    -1.0 < p.cosTheta <= 1.0 && p.sinTheta == Maths.SineOf(m, p.cosTheta)
  }

  /** The direction fields of a packet, compared before and after a pass. */
  function HeadingOf(p: Photon): EarlyPacket.Heading
    reads p
  {
    EarlyPacket.Heading(p.cosTheta, p.sinTheta, p.phi, p.cosPhi, p.sinPhi)
  }

  /** The packet `emit_photon` builds from the draws u1, u2: at the origin,
      cos theta = sqrt(u1) with its sine, phi = 2 pi u2 with its cosine and
      sine. */
  ghost predicate EmittedWith(p: Photon, m: Maths.Math, u1: real, u2: real)
    reads p
  {
    && p.x == 0.0 && p.y == 0.0 && p.z == 0.0
    && p.cosTheta == m.sqrt(u1) && p.sinTheta == Maths.SineOf(m, p.cosTheta)
    && p.phi == Maths.Azimuth(m, u2) && p.cosPhi == m.cos(p.phi) && p.sinPhi == m.sin(p.phi)
  }

  /** The direction the scattering gives from the draws u1, u2:
      cos theta = 2 u1 - 1 with its sine, phi = 2 pi u2 with its cosine and
      sine. */
  ghost predicate ScatteredWith(p: Photon, m: Maths.Math, u1: real, u2: real)
    reads p
  {
    && p.cosTheta == 2.0 * u1 - 1.0 && p.sinTheta == Maths.SineOf(m, p.cosTheta)
    && p.phi == Maths.Azimuth(m, u2) && p.cosPhi == m.cos(p.phi) && p.sinPhi == m.sin(p.phi)
  }

  /** `emit_photon()`: two draws xi1, xi2, then a packet at the origin with
      cos theta = sqrt(xi1) in (0,1], sin theta from it, and phi = 2 pi xi2
      with its cosine and sine (the packet is a stack variable handed back
      to be copied). */
  method EmitPhoton(rng: Rng, m: Maths.Math) returns (p: Photon)
    modifies rng
    ensures fresh(p)
    ensures rng.pos == old(rng.pos) + 2
    ensures EmittedWith(p, m, rng.draws(old(rng.pos)), rng.draws(old(rng.pos) + 1))
    ensures Maths.SqrtLaw(m) && HalfOpenUnit(rng) ==> Direction(p, m) && 0.0 < p.cosTheta && 0.0 <= p.sinTheta
    ensures Maths.SqrtLaw(m) && OpenUnit(rng) ==> p.cosTheta < 1.0
  {
    var xi1 := rng.Uniform();
    var xi2 := rng.Uniform();
    var cosTheta := m.sqrt(xi1);
    var phi := Maths.Azimuth(m, xi2);
    p := new Photon();
    p.x := 0.0;
    p.y := 0.0;
    p.z := 0.0;
    p.cosTheta := cosTheta;
    p.sinTheta := Maths.SineOf(m, cosTheta);
    p.cosPhi := m.cos(phi);
    p.sinPhi := m.sin(phi);
    p.phi := phi;
    if Maths.SqrtLaw(m) && HalfOpenUnit(rng) {
      Maths.SqrtUnit(m, xi1);
      Maths.SineOfCosine(m, cosTheta);
    } else if Maths.SqrtLaw(m) && OpenUnit(rng) {
      Maths.SqrtUnit(m, xi1);
    }
  }

  /** The end of a pass of `scatter_photon` once the packet has moved:
      re-emission by struct copy when it is below the slab, then
      `xi = random_number()`, and scattering (cos theta = 2U - 1,
      phi = 2 pi U') when xi < ALBEDO and the packet is strictly below the
      top. */
  method AfterMove(p: Photon, rng: Rng, m: Maths.Math) returns (scattered: bool)
    requires Maths.SqrtLaw(m) && HalfOpenUnit(rng) && Direction(p, m)
    modifies p, rng
    ensures rng.pos == old(rng.pos) + 1 + (if old(p.z) < 0.0 then 2 else 0) + (if scattered then 2 else 0)
    ensures Direction(p, m) && 0.0 <= p.z
    ensures OpenUnit(rng) && old(p.cosTheta) < 1.0 ==> p.cosTheta < 1.0
    ensures old(p.z) < 0.0 ==> p.z == 0.0 && (scattered <==> rng.draws(old(rng.pos) + 2) < ALBEDO)
    ensures 0.0 <= old(p.z) ==> p.z == old(p.z) && (scattered <==> rng.draws(old(rng.pos)) < ALBEDO && p.z < 1.0)
    ensures 0.0 <= old(p.z) ==> p.x == old(p.x) && p.y == old(p.y)
    ensures 0.0 <= old(p.z) && !scattered ==> HeadingOf(p) == old(HeadingOf(p))
    ensures old(p.z) < 0.0 ==> p.x == 0.0 && p.y == 0.0
    ensures old(p.z) < 0.0 && !scattered ==>
              EmittedWith(p, m, rng.draws(old(rng.pos)), rng.draws(old(rng.pos) + 1))
    ensures scattered ==>
              var k := old(rng.pos) + (if old(p.z) < 0.0 then 3 else 1);
              ScatteredWith(p, m, rng.draws(k), rng.draws(k + 1))
  {
    if p.z < 0.0 {
      var q := EmitPhoton(rng, m);
      p.CopyFrom(q);
    }
    scattered := AlbedoTest(p, rng, m);
  }

  /** `xi = random_number()` and, when xi < ALBEDO and the packet is strictly
      below the top, the scattering; the position is kept either way and the
      direction when there is no scattering. */
  method AlbedoTest(p: Photon, rng: Rng, m: Maths.Math) returns (scattered: bool)
    modifies p, rng
    ensures rng.pos == old(rng.pos) + 1 + (if scattered then 2 else 0)
    ensures scattered <==> rng.draws(old(rng.pos)) < ALBEDO && p.z < 1.0
    ensures p.x == old(p.x) && p.y == old(p.y) && p.z == old(p.z)
    ensures !scattered ==> HeadingOf(p) == old(HeadingOf(p))
    ensures scattered ==> ScatteredWith(p, m, rng.draws(old(rng.pos) + 1), rng.draws(old(rng.pos) + 2))
    ensures scattered && HalfOpenUnit(rng) ==> Direction(p, m)
    ensures scattered && OpenUnit(rng) ==> p.cosTheta < 1.0
  {
    var xi := rng.Uniform();
    scattered := xi < ALBEDO && p.z < 1.0;
    if scattered {
      Scatter(p, rng, m);
    }
  }

  /** The scattering of `scatter_photon`: cos theta = 2U - 1, sin theta from
      it, phi = 2 pi U' with its cosine and sine; the position is kept. */
  method Scatter(p: Photon, rng: Rng, m: Maths.Math)
    modifies p, rng
    ensures rng.pos == old(rng.pos) + 2
    ensures ScatteredWith(p, m, rng.draws(old(rng.pos)), rng.draws(old(rng.pos) + 1))
    ensures p.x == old(p.x) && p.y == old(p.y) && p.z == old(p.z)
    ensures HalfOpenUnit(rng) ==> Direction(p, m)
    ensures OpenUnit(rng) ==> p.cosTheta < 1.0
  {
    var u1 := rng.Uniform();
    var cosTheta := 2.0 * u1 - 1.0;
    var u2 := rng.Uniform();
    var phi := Maths.Azimuth(m, u2);
    p.cosTheta, p.sinTheta := cosTheta, Maths.SineOf(m, cosTheta);
    p.phi, p.cosPhi, p.sinPhi := phi, m.cos(phi), m.sin(phi);
  }

  /** The position update of `scatter_photon`: the packet moves a distance L
      along its direction, which is kept. */
  method Move(p: Photon, L: real)
    modifies p
    ensures p.x == old(p.x) + L * p.sinTheta * p.cosPhi
    ensures p.y == old(p.y) + L * p.sinTheta * p.sinPhi
    ensures p.z == old(p.z) + L * p.cosTheta
    ensures p.cosTheta == old(p.cosTheta) && p.sinTheta == old(p.sinTheta)
    ensures p.phi == old(p.phi) && p.cosPhi == old(p.cosPhi) && p.sinPhi == old(p.sinPhi)
  {
    p.x := p.x + L * p.sinTheta * p.cosPhi;
    p.y := p.y + L * p.sinTheta * p.sinPhi;
    p.z := p.z + L * p.cosTheta;
  }

  /** The start of a pass of `scatter_photon`: tau = -log(U),
      L = tau / TAU_MAX, and the packet moves L along its direction. */
  method Travel(p: Photon, rng: Rng, m: Maths.Math) returns (tau: real, L: real)
    requires Maths.LogLaw(m) && HalfOpenUnit(rng)
    modifies p, rng
    ensures rng.pos == old(rng.pos) + 1
    ensures tau == -1.0 * m.log(rng.draws(old(rng.pos))) && 0.0 <= tau
    ensures L == tau / TAU_MAX
    ensures p.x == old(p.x) + L * old(p.sinTheta) * old(p.cosPhi)
    ensures p.y == old(p.y) + L * old(p.sinTheta) * old(p.sinPhi)
    ensures p.z == old(p.z) + L * old(p.cosTheta)
    ensures HeadingOf(p) == old(HeadingOf(p))
  {
    tau := SampleTau(rng, m);
    L := tau / TAU_MAX;
    Move(p, L);
  }

  /** One pass of the loop of `scatter_photon` from inside the slab:
      `Travel`, then `AfterMove`. A pass ending at or above the top of the
      slab is never scattered; one ending below it leaves the packet as
      `emit_photon` builds it from the two draws after the optical depth,
      unless it is then scattered. */
  method Iterate(p: Photon, rng: Rng, m: Maths.Math) returns (L: real, ghost f: Flight)
    requires Maths.SqrtLaw(m) && Maths.LogLaw(m) && HalfOpenUnit(rng)
    requires 0.0 <= p.z <= 1.0 && Direction(p, m)
    modifies p, rng
    ensures f.zPre == old(p.z) && f.cosTheta == old(p.cosTheta) && 0.0 <= f.tau
    ensures f.tau == -1.0 * m.log(rng.draws(old(rng.pos)))
    ensures L == f.tau / TAU_MAX && f.zPost == old(p.z) + L * old(p.cosTheta)
    ensures rng.pos == old(rng.pos) + 2 + (if f.zPost < 0.0 then 2 else 0) + (if f.scattered then 2 else 0)
    ensures Direction(p, m) && 0.0 <= p.z
    ensures OpenUnit(rng) && old(p.cosTheta) < 1.0 ==> p.cosTheta < 1.0
    ensures f.zPost < 0.0 ==> p.z == 0.0 && (f.scattered <==> rng.draws(old(rng.pos) + 3) < ALBEDO)
    ensures 0.0 <= f.zPost ==> p.z == f.zPost && (f.scattered <==> rng.draws(old(rng.pos) + 1) < ALBEDO && f.zPost < 1.0)
    ensures 1.0 <= f.zPost ==> !f.scattered && p.cosTheta == f.cosTheta
    ensures KeptDirection(f, p.cosTheta)
    ensures 1.0 < p.z ==> 0.0 < p.cosTheta
    ensures 0.0 <= f.zPost ==>
              && p.x == old(p.x) + L * old(p.sinTheta) * old(p.cosPhi)
              && p.y == old(p.y) + L * old(p.sinTheta) * old(p.sinPhi)
    ensures 0.0 <= f.zPost && !f.scattered ==> HeadingOf(p) == old(HeadingOf(p))
    ensures f.zPost < 0.0 ==> p.x == 0.0 && p.y == 0.0
    ensures f.zPost < 0.0 && !f.scattered ==>
              EmittedWith(p, m, rng.draws(old(rng.pos) + 1), rng.draws(old(rng.pos) + 2))
    ensures f.scattered ==>
              var k := old(rng.pos) + (if f.zPost < 0.0 then 4 else 2);
              ScatteredWith(p, m, rng.draws(k), rng.draws(k + 1))
  {
    var zOrig, cOrig := p.z, p.cosTheta;
    var tau;
    tau, L := Travel(p, rng, m);
    ghost var x1, y1, z1 := p.x, p.y, p.z;
    var scattered := AfterMove(p, rng, m);
    assert 0.0 <= z1 ==> p.x == x1 && p.y == y1;
    f := Flight(zOrig, z1, cOrig, tau, scattered);
    if 1.0 < p.z {
      PositiveFactor(L, cOrig);
    }
  }

  /** `scatter_photon(packetPtr)` with at most `fuel` passes. There is no
      absorption; returns only with the packet above the slab (or out of
      fuel inside it), with the direction of its last flight, which points
      up; no pass ending at z >= 1 is scattered, so a packet landing exactly
      on z = 1 keeps its direction and flies again. */
  method ScatterPhoton(p: Photon, rng: Rng, m: Maths.Math, fuel: nat)
    returns (completed: bool, ghost flights: seq<Flight>)
    requires Maths.SqrtLaw(m) && Maths.LogLaw(m) && HalfOpenUnit(rng)
    requires Direction(p, m)
    modifies p, rng
    ensures completed <==> 1.0 < p.z
    ensures !completed && 0.0 <= old(p.z) ==> |flights| == fuel
    ensures FromSlab(flights) && Direction(p, m) && (flights != [] ==> 0.0 <= p.z)
    ensures |flights| <= fuel
    ensures OpenUnit(rng) && old(p.cosTheta) < 1.0 ==> p.cosTheta < 1.0
    ensures 0.0 <= old(p.z) <= 1.0 && 1 <= fuel ==> flights != []
    ensures flights != [] ==> flights[0].zPre == old(p.z) && flights[0].cosTheta == old(p.cosTheta)
    ensures forall k :: 0 <= k < |flights| ==> (1.0 <= flights[k].zPost ==> !flights[k].scattered)
    ensures completed && flights != [] ==>
              var last := flights[|flights| - 1];
              last.zPost == p.z && last.cosTheta == p.cosTheta && 0.0 < p.cosTheta
  {
    flights := [];
    var left := fuel;
    while 0.0 <= p.z <= 1.0 && 0 < left
      invariant |flights| + left == fuel
      invariant FromSlab(flights) && Direction(p, m) && (flights != [] ==> 0.0 <= p.z)
      invariant flights == [] ==> p.z == old(p.z) && p.cosTheta == old(p.cosTheta)
      invariant flights != [] ==> flights[0].zPre == old(p.z) && flights[0].cosTheta == old(p.cosTheta)
      invariant OpenUnit(rng) && old(p.cosTheta) < 1.0 ==> p.cosTheta < 1.0
      invariant forall k :: 0 <= k < |flights| ==> (1.0 <= flights[k].zPost ==> !flights[k].scattered)
      invariant 1.0 < p.z && flights != [] ==>
                  var last := flights[|flights| - 1];
                  last.zPost == p.z && last.cosTheta == p.cosTheta && 0.0 < p.cosTheta
      decreases left
    {
      left := left - 1;
      var L;
      ghost var f;
      L, f := Iterate(p, rng, m);
      flights := flights + [f];
    }
    completed := 1.0 < p.z;
  }

  /** The simulation loop of `main` in plane.c (lines 83-94): for each of
      the N_PHOTONS packets, `*packetPtr = *emit_photon()`, `scatter_photon`
      and `MU[photon_count] = costheta`. Packet k's passes are `runs[k]`:
      when its transport completed (`dones[k]`) the recorded cosine is that
      of its escaping pass. Every recorded cosine is in (-1,1], below 1 when
      every draw is below 1. */
  method Simulate(rng: Rng, m: Maths.Math, fuel: nat)
    returns (completed: bool, mu: array<real>, ghost runs: seq<seq<Flight>>, ghost dones: seq<bool>)
    requires Maths.SqrtLaw(m) && Maths.LogLaw(m) && HalfOpenUnit(rng) && 1 <= fuel
    modifies rng
    ensures fresh(mu) && mu.Length == N_PHOTONS
    ensures |runs| == N_PHOTONS && |dones| == N_PHOTONS
    ensures forall k :: 0 <= k < N_PHOTONS ==> PacketRun(runs[k], fuel, dones[k], mu[k])
    ensures completed <==> forall k :: 0 <= k < N_PHOTONS ==> dones[k]
    ensures forall i :: 0 <= i < N_PHOTONS ==> -1.0 < mu[i] <= 1.0
    ensures OpenUnit(rng) ==> forall i :: 0 <= i < N_PHOTONS ==> mu[i] < 1.0
  {
    mu := new real[N_PHOTONS];
    var packet := new Photon();
    completed := true;
    runs, dones := [], [];
    for photonCount := 0 to N_PHOTONS
      invariant |runs| == photonCount && |dones| == photonCount
      invariant forall k :: 0 <= k < photonCount ==> PacketRun(runs[k], fuel, dones[k], mu[k])
      invariant completed <==> forall k :: 0 <= k < photonCount ==> dones[k]
      invariant forall i :: 0 <= i < photonCount ==> -1.0 < mu[i] <= 1.0
      invariant OpenUnit(rng) ==> forall i :: 0 <= i < photonCount ==> mu[i] < 1.0
    {
      var done: bool;
      ghost var run: seq<Flight>;
      done, run := RunPacket(packet, rng, m, fuel);
      mu[photonCount] := packet.cosTheta;
      completed := completed && done;
      runs, dones := runs + [run], dones + [done];
    }
  }

  /** One packet of the simulation loop: emit, copy into the packet and
      transport it; the packet ends holding the recorded cosine. */
  method RunPacket(packet: Photon, rng: Rng, m: Maths.Math, fuel: nat) returns (done: bool, ghost run: seq<Flight>)
    requires Maths.SqrtLaw(m) && Maths.LogLaw(m) && HalfOpenUnit(rng) && 1 <= fuel
    modifies packet, rng
    ensures PacketRun(run, fuel, done, packet.cosTheta)
    ensures run[0].cosTheta == m.sqrt(rng.draws(old(rng.pos)))
    ensures -1.0 < packet.cosTheta <= 1.0
    ensures OpenUnit(rng) ==> packet.cosTheta < 1.0
  {
    var q := EmitPhoton(rng, m);
    packet.CopyFrom(q);
    done, run := ScatterPhoton(packet, rng, m, fuel);
  }

  /** `bin_photons(mu)`: a histogram of MU_BINS zeroed counts with the bin
      angles in degrees, then each of the N_PHOTONS cosines counted into bin
      `abs((int)(mu[i] * MU_BINS))`: the counts are the histogram of the
      cosines and total N_PHOTONS. Every cosine must have magnitude below 1
      for its index to be one of the MU_BINS. */
  method BinPhotons(mu: array<real>, m: Maths.Math) returns (hist: PhotonHist)
    requires N_PHOTONS <= mu.Length
    requires forall i :: 0 <= i < N_PHOTONS ==> -1.0 < mu[i] < 1.0
    requires 0.0 < m.pi
    ensures fresh(hist) && fresh(hist.bins) && fresh(hist.theta)
    ensures hist.bins.Length == MU_BINS && hist.theta.Length == MU_BINS
    ensures hist.bins[..] == Histogram(mu[..N_PHOTONS], MU_BINS)
    ensures Sum(hist.bins[..]) == N_PHOTONS
    ensures forall i :: 0 <= i < MU_BINS ==> hist.theta[i] == ThetaDegrees(m, i, MU_BINS)
  {
    hist := new PhotonHist(MU_BINS);
    hist.BinPhotons(mu, N_PHOTONS, MU_BINS, m);
    assert hist.bins[..MU_BINS] == hist.bins[..];
  }

  /** `calculate_intensity(hist, p)`: p[i] = bins[i] * MU_BINS /
      (2 N_PHOTONS cos(theta[i] * pi/180)), the intensity of each count at
      its bin-centre cosine. The `(float)` cast of a count is exact, the
      counts being at most N_PHOTONS. */
  method CalculateIntensity(hist: PhotonHist, p: array<real>, m: Maths.Math)
    requires hist.bins.Length == MU_BINS && hist.theta.Length == MU_BINS && MU_BINS <= p.Length
    requires p != hist.theta && Maths.AcosLaw(m)
    requires forall i :: 0 <= i < MU_BINS ==> hist.theta[i] == ThetaDegrees(m, i, MU_BINS)
    modifies p
    ensures forall i :: 0 <= i < MU_BINS ==>
              0.0 < BinCentre(i, MU_BINS) &&
              p[i] == Intensity(hist.bins[i] as real, MU_BINS, N_PHOTONS, BinCentre(i, MU_BINS))
    ensures p[MU_BINS..] == old(p[MU_BINS..])
  {
    hist.CalculateIntensity(p, N_PHOTONS, MU_BINS, m);
  }

  /** A packet emitted with the draw 1 (`rand()` returning RAND_MAX) points
      straight up, cos theta = 1; if its first flight leaves the slab it
      keeps that direction, and `bin_photons` counts it into `bins[MU_BINS]`,
      past the end of the array. */
  lemma EmissionAtUnitDraw(p: Photon, m: Maths.Math, u2: real)
    requires Maths.SqrtLaw(m) && EmittedWith(p, m, 1.0, u2)
    ensures p.cosTheta == 1.0 && BinIndex(p.cosTheta, MU_BINS) == MU_BINS
  {
    Maths.SqrtOne(m);
    UnitCosineOverruns(MU_BINS);
  }

  /** `main` of plane.c with the draws strictly inside (0,1): every
      recorded cosine is below 1, so `bin_photons` stays inside its arrays,
      its counts are the histogram of the escape cosines and total
      N_PHOTONS, and `calculate_intensity` gives every bin the intensity of
      its count. */
  method SimulateAndBin(rng: Rng, m: Maths.Math, fuel: nat)
    returns (completed: bool, mu: array<real>, hist: PhotonHist, intensity: array<real>)
    requires Maths.SqrtLaw(m) && Maths.LogLaw(m) && Maths.AcosLaw(m) && OpenUnit(rng) && 1 <= fuel
    modifies rng
    ensures fresh(mu) && fresh(hist) && fresh(hist.bins) && fresh(intensity)
    ensures mu.Length == N_PHOTONS && hist.bins.Length == MU_BINS && intensity.Length == MU_BINS
    ensures forall i :: 0 <= i < N_PHOTONS ==> -1.0 < mu[i] < 1.0
    ensures hist.bins[..] == Histogram(mu[..], MU_BINS)
    ensures Sum(hist.bins[..]) == N_PHOTONS
    ensures forall i :: 0 <= i < MU_BINS ==>
              0.0 < BinCentre(i, MU_BINS) &&
              intensity[i] == Intensity(hist.bins[i] as real, MU_BINS, N_PHOTONS, BinCentre(i, MU_BINS))
  {
    ghost var runs, dones;
    completed, mu, runs, dones := Simulate(rng, m, fuel);
    hist := BinPhotons(mu, m);
    assert mu[..N_PHOTONS] == mu[..];
    intensity := new real[MU_BINS];
    CalculateIntensity(hist, intensity, m);
  }
}
