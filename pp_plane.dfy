/** The function-style plane_parallel revision plane_parallel/plane.py:
    `sample_optical_depth`, `emit_photon` and `isotropic_scattering` return
    plain values, and the simulation script keeps each photon's position and
    direction in local variables. Unlike the other revisions a photon that
    leaves through the bottom is not re-emitted: it is lost, and its entry
    of MU stays 0; there is no absorption. The draws are
    `np.random.random()`, in [0,1), with 0 excluded. */
module PpPlane {
  import opened Numeric
  import Maths
  import opened Random
  import opened EarlyTransport

  /** `NPhotons = int(10e4)`. */
  const N_PHOTONS: nat := 100000
  /** `tau_max = 10`. */
  const TAU_MAX: real := 10.0
  /** `albedo = 1`. */
  const ALBEDO: real := 1.0

  /** The direction `costheta, sintheta, cosphi, sinphi` the script carries. */
  datatype Direction = Direction(cosTheta: real, sinTheta: real, cosPhi: real, sinPhi: real)

  /** The direction `emit_photon` builds from its draws xi1, xi2:
      cos theta = sqrt(xi1) with its sine, and the cosine and sine of
      phi = 2 pi xi2. */
  function EmittedDirection(m: Maths.Math, xi1: real, xi2: real): Direction
  {
    var cosTheta := m.sqrt(xi1);
    Direction(cosTheta, Maths.SineOf(m, cosTheta), m.cos(Maths.Azimuth(m, xi2)), m.sin(Maths.Azimuth(m, xi2)))
  }

  /** The direction `isotropic_scattering` builds from its draws xi1, xi2:
      cos theta = 2 xi1 - 1 with its sine, and the cosine and sine of
      phi = 2 pi xi2. */
  function ScatteredDirection(m: Maths.Math, xi1: real, xi2: real): Direction
  {
    var cosTheta := 2.0 * xi1 - 1.0;
    Direction(cosTheta, Maths.SineOf(m, cosTheta), m.cos(Maths.Azimuth(m, xi2)), m.sin(Maths.Azimuth(m, xi2)))
  }

  /** A direction as both samplers build it from draws in (0,1):
      -1 < cos theta < 1 with sin theta = sqrt(1 - cos^2 theta), and cos phi,
      sin phi the cosine and sine of one azimuth. */
  ghost predicate Drawn(d: Direction, m: Maths.Math)
  {
    && -1.0 < d.cosTheta < 1.0 && d.sinTheta == Maths.SineOf(m, d.cosTheta)
    && exists phi :: d.cosPhi == m.cos(phi) && d.sinPhi == m.sin(phi)
  }

  /** The sines of a drawn direction complete their cosines to unit vectors,
      and sin theta is non-negative. */
  lemma DrawnUnit(d: Direction, m: Maths.Math)
    requires Maths.SqrtLaw(m) && Maths.TrigLaw(m) && Drawn(d, m)
    ensures 0.0 <= d.sinTheta && d.cosTheta * d.cosTheta + d.sinTheta * d.sinTheta == 1.0
    ensures d.cosPhi * d.cosPhi + d.sinPhi * d.sinPhi == 1.0
  {
    Maths.SineOfCosine(m, d.cosTheta);
    var phi :| d.cosPhi == m.cos(phi) && d.sinPhi == m.sin(phi);
  }

  /** `sample_optical_depth(tau_max)`: tau = -log(xi), non-negative, and the
      distance L = tau / tau_max it covers, so L * tau_max = tau. */
  method SampleOpticalDepth(tauMax: real, rng: Rng, m: Maths.Math) returns (tau: real, L: real)
    requires tauMax != 0.0
    modifies rng
    ensures rng.pos == old(rng.pos) + 1
    ensures tau == -1.0 * m.log(rng.draws(old(rng.pos)))
    ensures L * tauMax == tau
    ensures Maths.LogLaw(m) && OpenUnit(rng) ==> 0.0 <= tau
    ensures Maths.LogLaw(m) && OpenUnit(rng) && 0.0 < tauMax ==> 0.0 <= L
  {
    var xi := rng.Uniform();
    tau := -1.0 * m.log(xi);
    L := tau / tauMax;
    if Maths.LogLaw(m) && OpenUnit(rng) && 0.0 < tauMax {
      DivNonNegative(tau, tauMax);
    }
  }

  /** `emit_photon()`: draws xi1, xi2; cos theta = sqrt(xi1), in (0,1), with
      sin theta from it, phi = 2 pi xi2 with its cosine and sine, at the
      origin. */
  method EmitPhoton(rng: Rng, m: Maths.Math) returns (x: real, y: real, z: real, d: Direction)
    modifies rng
    ensures x == 0.0 && y == 0.0 && z == 0.0
    ensures rng.pos == old(rng.pos) + 2
    ensures d == EmittedDirection(m, rng.draws(old(rng.pos)), rng.draws(old(rng.pos) + 1))
    ensures Maths.SqrtLaw(m) && OpenUnit(rng) ==> Drawn(d, m) && 0.0 < d.cosTheta
  {
    var xi1 := rng.Uniform();
    var xi2 := rng.Uniform();
    var cosTheta := m.sqrt(xi1);
    var phi := Maths.Azimuth(m, xi2);
    d := Direction(cosTheta, Maths.SineOf(m, cosTheta), m.cos(phi), m.sin(phi));
    x, y, z := 0.0, 0.0, 0.0;
    if Maths.SqrtLaw(m) && OpenUnit(rng) {
      Maths.SqrtUnit(m, xi1);
    }
  }

  /** `isotropic_scattering()`: draws xi1, xi2; cos theta = 2 xi1 - 1, in
      (-1,1), with sin theta from it, and phi = 2 pi xi2 with its cosine and
      sine; phi is returned as well. */
  method IsotropicScattering(rng: Rng, m: Maths.Math) returns (d: Direction, phi: real)
    modifies rng
    ensures rng.pos == old(rng.pos) + 2
    ensures d == ScatteredDirection(m, rng.draws(old(rng.pos)), rng.draws(old(rng.pos) + 1))
    ensures phi == Maths.Azimuth(m, rng.draws(old(rng.pos) + 1))
    ensures OpenUnit(rng) ==> Drawn(d, m)
  {
    var xi1 := rng.Uniform();
    var xi2 := rng.Uniform();
    var cosTheta := 2.0 * xi1 - 1.0;
    phi := Maths.Azimuth(m, xi2);
    d := Direction(cosTheta, Maths.SineOf(m, cosTheta), m.cos(phi), m.sin(phi));
  }

  /** One pass of the while loop of the script from inside the slab: save
      the position, sample the optical depth, move, draw xi, and scatter
      when xi is below the albedo and the photon is strictly inside the
      slab, to the direction `isotropic_scattering` builds from the two
      draws after xi. A pass that ends on or outside a boundary keeps its
      direction. */
  method Pass(x: real, y: real, z: real, d: Direction, rng: Rng, m: Maths.Math, albedo: real, tauMax: real)
    returns (xt: real, yt: real, zt: real, d': Direction, L: real, ghost f: Flight)
    requires Maths.SqrtLaw(m) && Maths.LogLaw(m) && OpenUnit(rng) && 0.0 < tauMax
    requires 0.0 <= z <= 1.0 && Drawn(d, m)
    modifies rng
    ensures Drawn(d', m)
    ensures f.zPre == z && f.zPost == zt && f.cosTheta == d.cosTheta && 0.0 <= f.tau
    ensures f.tau == -1.0 * m.log(rng.draws(old(rng.pos))) && L == f.tau / tauMax
    ensures zt == z + L * d.cosTheta
    ensures xt == x + L * d.sinTheta * d.cosPhi && yt == y + L * d.sinTheta * d.sinPhi
    ensures f.scattered <==> rng.draws(old(rng.pos) + 1) < albedo && 0.0 < zt < 1.0
    ensures !f.scattered ==> d' == d
    ensures f.scattered ==> d' == ScatteredDirection(m, rng.draws(old(rng.pos) + 2), rng.draws(old(rng.pos) + 3))
    ensures rng.pos == old(rng.pos) + 2 + (if f.scattered then 2 else 0)
    ensures 1.0 < zt ==> 0.0 < d.cosTheta
    ensures zt < 0.0 ==> d.cosTheta < 0.0
  {
    var tau;
    tau, L, xt, yt, zt := Travel(x, y, z, d, rng, m, tauMax);
    var xi := rng.Uniform();
    var scattered := xi < albedo && zt > 0.0 && zt < 1.0;
    d' := d;
    if scattered {
      var phi;
      d', phi := IsotropicScattering(rng, m);
    }
    f := Flight(z, zt, d.cosTheta, tau, scattered);
    if 1.0 < zt {
      PositiveFactor(L, d.cosTheta);
    }
    if zt < 0.0 {
      NegativeFactor(L, d.cosTheta);
    }
  }

  /** The start of a pass: the optical depth, the distance L = tau / tau_max
      and the new position `(x, y, z) + L * (sin theta cos phi,
      sin theta sin phi, cos theta)`. */
  method Travel(x: real, y: real, z: real, d: Direction, rng: Rng, m: Maths.Math, tauMax: real)
    returns (tau: real, L: real, xt: real, yt: real, zt: real)
    requires Maths.LogLaw(m) && OpenUnit(rng) && 0.0 < tauMax
    modifies rng
    ensures rng.pos == old(rng.pos) + 1
    ensures tau == -1.0 * m.log(rng.draws(old(rng.pos))) && 0.0 <= tau && 0.0 <= L && L == tau / tauMax
    ensures xt == x + L * d.sinTheta * d.cosPhi && yt == y + L * d.sinTheta * d.sinPhi
    ensures zt == z + L * d.cosTheta
  {
    tau, L := SampleOpticalDepth(tauMax, rng, m);
    xt := x + L * d.sinTheta * d.cosPhi;
    yt := y + L * d.sinTheta * d.sinPhi;
    zt := z + L * d.cosTheta;
  }

  /** One photon of the script, with at most `fuel` passes: emitted at the
      origin, then `while (zt >= 0) and (zt <= 1)`. When the loop finishes
      the photon has left the slab through the top or the bottom; either
      way its last pass was unscattered, and it left the top exactly when
      its last direction points up. It is never re-emitted, and only passes
      ending strictly inside the slab are scattered. */
  method TransportPhoton(rng: Rng, m: Maths.Math, albedo: real, tauMax: real, fuel: nat)
    returns (zt: real, d: Direction, completed: bool, ghost flights: seq<Flight>)
    requires Maths.SqrtLaw(m) && Maths.LogLaw(m) && OpenUnit(rng) && 0.0 < tauMax
    modifies rng
    ensures Drawn(d, m) && |flights| <= fuel && FromSlab(flights) && Chained(flights)
    ensures flights != [] ==> flights[0].zPre == 0.0 && flights[|flights| - 1].zPost == zt
    ensures flights != [] ==> flights[0].cosTheta == m.sqrt(rng.draws(old(rng.pos)))
    ensures flights == [] ==> zt == 0.0
    ensures flights != [] && !flights[|flights| - 1].scattered ==> d.cosTheta == flights[|flights| - 1].cosTheta
    ensures completed <==> !(0.0 <= zt <= 1.0)
    ensures !completed ==> |flights| == fuel
    ensures completed ==> flights != [] && !flights[|flights| - 1].scattered && d.cosTheta == flights[|flights| - 1].cosTheta
    ensures 1.0 < zt ==> 0.0 < d.cosTheta < 1.0
    ensures zt < 0.0 ==> d.cosTheta < 0.0
    ensures forall k :: 0 <= k < |flights| ==> (flights[k].scattered ==> 0.0 < flights[k].zPost < 1.0)
    ensures PhotonRun(flights, completed, fuel)
    ensures (if zt >= 1.0 then d.cosTheta else 0.0) == RecordedCosine(flights)
  {
    var xt, yt;
    xt, yt, zt, d := EmitPhoton(rng, m);
    ghost var c0 := d.cosTheta;
    flights := [];
    var left := fuel;
    while 0.0 <= zt && zt <= 1.0 && 0 < left
      invariant Drawn(d, m) && |flights| + left == fuel && FromSlab(flights) && Chained(flights)
      invariant flights == [] ==> zt == 0.0
      invariant flights != [] ==> flights[0].zPre == 0.0 && flights[|flights| - 1].zPost == zt
      invariant flights == [] ==> d.cosTheta == c0
      invariant flights != [] ==> flights[0].cosTheta == c0
      invariant flights != [] && !flights[|flights| - 1].scattered ==> d.cosTheta == flights[|flights| - 1].cosTheta
      invariant 1.0 < zt ==> 0.0 < d.cosTheta
      invariant zt < 0.0 ==> d.cosTheta < 0.0
      invariant forall k :: 0 <= k < |flights| ==> (flights[k].scattered ==> 0.0 < flights[k].zPost < 1.0)
      decreases left
    {
      left := left - 1;
      var L;
      ghost var f;
      xt, yt, zt, d, L, f := Pass(xt, yt, zt, d, rng, m, albedo, tauMax);
      flights := flights + [f];
    }
    completed := !(0.0 <= zt <= 1.0);
  }

  /** What the script records for a photon whose passes were `run`: MU
      gets the direction cosine when the loop ended with zt >= 1, which is
      the cosine of the last pass (a pass ending at or above the top face is
      never scattered), and stays 0 otherwise. */
  function RecordedCosine(run: seq<Flight>): real
  {
    if run != [] && 1.0 <= run[|run| - 1].zPost then run[|run| - 1].cosTheta else 0.0
  }

  /** What one photon of the script did: at most `fuel` passes, the first
      from the origin, each from where the previous one ended and from
      inside the slab, scattered only strictly inside it; all `fuel` of
      them unless the loop finished, and it finished exactly when the last
      pass left the slab, upwards out of the top and downwards out of the
      bottom, unscattered. */
  predicate PhotonRun(run: seq<Flight>, done: bool, fuel: nat)
  {
    && |run| <= fuel && FromSlab(run) && Chained(run) && (run != [] ==> run[0].zPre == 0.0)
    && (forall k :: 0 <= k < |run| ==> (run[k].scattered ==> 0.0 < run[k].zPost < 1.0))
    && (!done ==> |run| == fuel)
    && (done <==> run != [] && !(0.0 <= run[|run| - 1].zPost <= 1.0))
    && (done && 1.0 < run[|run| - 1].zPost ==> 0.0 < run[|run| - 1].cosTheta < 1.0)
    && (done && run[|run| - 1].zPost < 0.0 ==> run[|run| - 1].cosTheta < 0.0)
  }

  /** A photon of the script that left the slab records a cosine in (0,1)
      when it left through the top and 0 when it left through the bottom. */
  lemma RecordedCosineBounds(run: seq<Flight>, fuel: nat)
    requires PhotonRun(run, true, fuel)
    ensures 1.0 < run[|run| - 1].zPost ==> 0.0 < RecordedCosine(run) < 1.0
    ensures run[|run| - 1].zPost < 0.0 ==> RecordedCosine(run) == 0.0
  {
  }

  /** One iteration of the script's photon loop, on a still-zero MU entry:
      a photon's transport, then the entry is the cosine its passes record;
      no other entry changes. */
  method RecordPhoton(mu: array<real>, ph: nat, rng: Rng, m: Maths.Math, fuel: nat)
    returns (done: bool, ghost run: seq<Flight>)
    requires Maths.SqrtLaw(m) && Maths.LogLaw(m) && OpenUnit(rng) && ph < mu.Length && mu[ph] == 0.0
    modifies mu, rng
    ensures PhotonRun(run, done, fuel) && mu[ph] == RecordedCosine(run)
    ensures forall k :: 0 <= k < mu.Length && k != ph ==> mu[k] == old(mu[k])
  {
    var zt, d;
    zt, d, done, run := TransportPhoton(rng, m, ALBEDO, TAU_MAX, fuel);
    if zt >= 1.0 {
      mu[ph] := d.cosTheta;
    }
  }

  /** The script with at most `fuel` passes per photon: MU starts as zeros
      and entry k is what photon k's passes `runs[k]` record: the direction
      cosine of its last pass when its loop ended with `zt >= 1`, and 0
      otherwise. When every loop finished each photon has left through one
      face or the other, and its entry is in (0,1) or 0 accordingly. */
  method Simulate(rng: Rng, m: Maths.Math, fuel: nat)
    returns (completed: bool, mu: array<real>, ghost runs: seq<seq<Flight>>, ghost dones: seq<bool>)
    requires Maths.SqrtLaw(m) && Maths.LogLaw(m) && OpenUnit(rng)
    modifies rng
    ensures fresh(mu) && mu.Length == N_PHOTONS && |runs| == N_PHOTONS && |dones| == N_PHOTONS
    ensures forall k :: 0 <= k < N_PHOTONS ==> PhotonRun(runs[k], dones[k], fuel)
    ensures forall k :: 0 <= k < N_PHOTONS ==> mu[k] == RecordedCosine(runs[k])
    ensures completed <==> false !in dones
  {
    mu := new real[N_PHOTONS](_ => 0.0);
    runs, dones := [], [];
    completed := true;
    for ph := 0 to N_PHOTONS
      invariant |runs| == ph && |dones| == ph
      invariant forall k :: 0 <= k < ph ==> PhotonRun(runs[k], dones[k], fuel)
      invariant forall k :: 0 <= k < ph ==> mu[k] == RecordedCosine(runs[k])
      invariant forall k :: ph <= k < N_PHOTONS ==> mu[k] == 0.0
      invariant completed <==> false !in dones
    {
      var done;
      ghost var run;
      done, run := RecordPhoton(mu, ph, rng, m, fuel);
      runs, dones := runs + [run], dones + [done];
      completed := completed && done;
    }
  }
}
