/** The object-oriented Python revision Python/plane_oo.py: a `PhotonPacket`
    class whose methods reset and redirect it, `transport_photon_packet`,
    which moves it in place until it escapes or is absorbed, and `main`,
    which transports a fresh packet per photon and bins the escapes with the
    histogram functions of `PyHist`. The draws are `np.random.rand()`, in
    [0,1), with 0 excluded. */
module PyPlaneOo {
  import opened Numeric
  import Maths
  import opened Random
  import opened Bins
  import opened EarlyTransport
  import opened PyHist
  import PyPlane

  /** `n_photons = int(1e6)` of `main`. */
  const N_PHOTONS: nat := 1000000
  /** `n_bins = 20`. */
  const N_BINS: nat := 20
  /** `tau_max = 7`. */
  const TAU_MAX: real := 7.0
  /** `albedo = 1.0`. */
  const ALBEDO: real := 1.0

  class PhotonPacket {
    /** `coords`, a numpy array of three coordinates. */
    var coords: array<real>
    var cosTheta: real
    var sinTheta: real
    var cosPhi: real
    var sinPhi: real
    var escaped: bool

    /** A direction as both samplers build it from draws in (0,1), with a
        three-entry position. */
    ghost predicate Drawn(m: Maths.Math)
      reads this
    {
      && coords.Length == 3
      && -1.0 < cosTheta < 1.0 && sinTheta == Maths.SineOf(m, cosTheta)
      && -1.0 <= cosPhi <= 1.0 && sinPhi == Maths.SineOf(m, cosPhi)
    }

    /** The direction: cos theta, sin theta, cos phi, sin phi. */
    function HeadingOf(): (real, real, real, real)
      reads this
    {
      (cosTheta, sinTheta, cosPhi, sinPhi)
    }

    /** The direction `__init__` gives from the draws u1, u2:
        cos theta = sqrt(u1), cos phi = cos(2 pi u2), each sine as
        sqrt(1 - cos^2). */
    ghost predicate InitWith(m: Maths.Math, u1: real, u2: real)
      reads this
    {
      && cosTheta == m.sqrt(u1) && sinTheta == Maths.SineOf(m, cosTheta)
      && cosPhi == m.cos(Maths.Azimuth(m, u2)) && sinPhi == Maths.SineOf(m, cosPhi)
    }

    /** The direction `isotropic_scatter` gives from the draws u1, u2:
        cos theta = 2 u1 - 1, cos phi = cos(2 pi u2), each sine as
        sqrt(1 - cos^2). */
    ghost predicate ScatterWith(m: Maths.Math, u1: real, u2: real)
      reads this
    {
      && cosTheta == 2.0 * u1 - 1.0 && sinTheta == Maths.SineOf(m, cosTheta)
      && cosPhi == m.cos(Maths.Azimuth(m, u2)) && sinPhi == Maths.SineOf(m, cosPhi)
    }

    /** `PhotonPacket()`: allocate and run `__init__`. */
    constructor (rng: Rng, m: Maths.Math)
      modifies rng
      ensures fresh(coords) && coords[..] == [0.0, 0.0, 0.0] && !escaped
      ensures rng.pos == old(rng.pos) + 2
      ensures InitWith(m, rng.draws(old(rng.pos)), rng.draws(old(rng.pos) + 1))
      ensures Maths.SqrtLaw(m) && Maths.TrigLaw(m) && OpenUnit(rng) ==> Drawn(m) && 0.0 < cosTheta
    {
      coords := new real[3];
      new;
      Init(rng, m);
    }

    /** `__init__()`: a fresh position array at the origin, cos theta =
        sqrt(rand), in (0,1), cos phi = cos(2 pi rand), the sines from the
        cosines, and `escaped` false. The transport calls it again to restart
        a packet lost below the slab. */
    method Init(rng: Rng, m: Maths.Math)
      modifies this, rng
      ensures fresh(coords) && coords[..] == [0.0, 0.0, 0.0] && !escaped
      ensures rng.pos == old(rng.pos) + 2
      ensures InitWith(m, rng.draws(old(rng.pos)), rng.draws(old(rng.pos) + 1))
      ensures Maths.SqrtLaw(m) && Maths.TrigLaw(m) && OpenUnit(rng) ==> Drawn(m) && 0.0 < cosTheta
    {
      coords := new real[3](_ => 0.0);
      var xi1 := rng.Uniform();
      cosTheta := m.sqrt(xi1);
      sinTheta := Maths.SineOf(m, cosTheta);
      var xi2 := rng.Uniform();
      cosPhi := m.cos(Maths.Azimuth(m, xi2));
      sinPhi := Maths.SineOf(m, cosPhi);
      escaped := false;
      if Maths.SqrtLaw(m) && Maths.TrigLaw(m) && OpenUnit(rng) {
        Maths.SqrtUnit(m, xi1);
        Maths.TrigBounds(m, Maths.Azimuth(m, xi2));
      }
    }

    /** `isotropic_scatter()`: cos theta = 2 rand - 1, in (-1,1),
        cos phi = cos(2 pi rand), the sines from the cosines; the position and
        `escaped` are kept. */
    method IsotropicScatter(rng: Rng, m: Maths.Math)
      modifies this, rng
      ensures coords == old(coords) && escaped == old(escaped)
      ensures rng.pos == old(rng.pos) + 2
      ensures ScatterWith(m, rng.draws(old(rng.pos)), rng.draws(old(rng.pos) + 1))
      ensures Maths.TrigLaw(m) && OpenUnit(rng) && coords.Length == 3 ==> Drawn(m)
    {
      var xi1 := rng.Uniform();
      cosTheta := 2.0 * xi1 - 1.0;
      sinTheta := Maths.SineOf(m, cosTheta);
      var xi2 := rng.Uniform();
      cosPhi := m.cos(Maths.Azimuth(m, xi2));
      sinPhi := Maths.SineOf(m, cosPhi);
      if Maths.TrigLaw(m) {
        Maths.TrigBounds(m, Maths.Azimuth(m, xi2));
      }
    }
  }

  /** The position update of `transport_photon_packet`:
      `coords += L * (sin theta cos phi, sin theta sin phi, cos theta)`. */
  method Move(photon: PhotonPacket, L: real)
    requires photon.coords.Length == 3
    modifies photon.coords
    ensures photon.coords[0] == old(photon.coords[0]) + L * photon.sinTheta * photon.cosPhi
    ensures photon.coords[1] == old(photon.coords[1]) + L * photon.sinTheta * photon.sinPhi
    ensures photon.coords[2] == old(photon.coords[2]) + L * photon.cosTheta
  {
    var c := photon.coords;
    c[0] := c[0] + L * photon.sinTheta * photon.cosPhi;
    c[1] := c[1] + L * photon.sinTheta * photon.sinPhi;
    c[2] := c[2] + L * photon.cosTheta;
  }

  /** The branches that end a pass, on the moved packet: below the slab
      `__init__` restarts it; above it `escaped` is set and the direction
      kept; inside it `xi < albedo` scatters and anything else absorbs. */
  method Branch(photon: PhotonPacket, rng: Rng, m: Maths.Math, albedo: real)
    returns (scattered: bool, absorbed: bool)
    requires Maths.SqrtLaw(m) && Maths.TrigLaw(m) && OpenUnit(rng) && photon.Drawn(m)
    modifies photon, rng
    ensures photon.Drawn(m) && 0.0 <= photon.coords[2]
    ensures photon.coords == old(photon.coords) || fresh(photon.coords)
    ensures !(scattered && absorbed)
    ensures rng.pos == old(rng.pos) + PyPlane.BranchDraws(old(photon.coords[2]), scattered)
    ensures old(photon.coords[2]) < 0.0 ==>
              fresh(photon.coords) && photon.coords[..] == [0.0, 0.0, 0.0] && !photon.escaped &&
              !scattered && !absorbed && 0.0 < photon.cosTheta &&
              photon.InitWith(m, rng.draws(old(rng.pos)), rng.draws(old(rng.pos) + 1))
    ensures 1.0 < old(photon.coords[2]) ==>
              photon.coords == old(photon.coords) && photon.escaped && !scattered && !absorbed
    ensures 0.0 <= old(photon.coords[2]) <= 1.0 ==>
              photon.coords == old(photon.coords) && photon.escaped == old(photon.escaped) &&
              (scattered <==> rng.draws(old(rng.pos)) < albedo) && (absorbed <==> !scattered)
    ensures scattered ==> photon.ScatterWith(m, rng.draws(old(rng.pos) + 1), rng.draws(old(rng.pos) + 2))
    ensures !scattered && 0.0 <= old(photon.coords[2]) ==> photon.HeadingOf() == old(photon.HeadingOf())
    ensures absorbed ==> albedo < 1.0
  {
    scattered, absorbed := false, false;
    if photon.coords[2] < 0.0 {
      photon.Init(rng, m);
    } else if photon.coords[2] > 1.0 {
      photon.escaped := true;
    } else {
      var xi := rng.Uniform();
      if xi < albedo {
        photon.IsotropicScatter(rng, m);
        scattered := true;
      } else {
        absorbed := true;
      }
    }
  }

  /** One pass of the while loop of `transport_photon_packet` from inside the
      slab: L = -log(rand) / tau_max, move, then `Branch`. A pass that leaves
      the slab upwards is never scattered and keeps its direction, which
      points up; unless the packet fell below the slab it has moved L along
      its direction; a restart uses the two draws after the optical depth, a
      scattering the two after xi. */
  method Pass(photon: PhotonPacket, rng: Rng, m: Maths.Math, albedo: real, tauMax: real)
    returns (absorbed: bool, L: real, ghost f: Flight)
    requires Maths.SqrtLaw(m) && Maths.LogLaw(m) && Maths.TrigLaw(m) && OpenUnit(rng) && 0.0 < tauMax
    requires photon.Drawn(m) && 0.0 <= photon.coords[2] <= 1.0
    modifies photon, photon.coords, rng
    ensures photon.Drawn(m) && 0.0 <= photon.coords[2]
    ensures photon.coords == old(photon.coords) || fresh(photon.coords)
    ensures f.zPre == old(photon.coords[2]) && f.cosTheta == old(photon.cosTheta) && 0.0 <= f.tau
    ensures f.tau == -1.0 * m.log(rng.draws(old(rng.pos))) && L == f.tau / tauMax
    ensures f.zPost == old(photon.coords[2]) + L * old(photon.cosTheta)
    ensures rng.pos == old(rng.pos) + 1 + PyPlane.BranchDraws(f.zPost, f.scattered)
    ensures f.zPost < 0.0 ==> !photon.escaped && !f.scattered && !absorbed
    ensures 0.0 <= f.zPost ==> photon.coords[2] == f.zPost
    ensures OoPassEffect(photon, m, rng.draws, old(rng.pos), L, f)
    ensures 1.0 < f.zPost ==>
              photon.escaped && photon.cosTheta == f.cosTheta && 0.0 < f.cosTheta && !f.scattered && !absorbed
    ensures 0.0 <= f.zPost <= 1.0 ==>
              photon.escaped == old(photon.escaped) && (absorbed <==> !f.scattered) &&
              (f.scattered <==> rng.draws(old(rng.pos) + 1) < albedo)
    ensures absorbed ==> albedo < 1.0
  {
    var z0, c0 := photon.coords[2], photon.cosTheta;
    var tau;
    tau, L := Advance(photon, rng, m, tauMax);
    ghost var x1, y1, z1 := photon.coords[0], photon.coords[1], photon.coords[2];
    var scattered;
    scattered, absorbed := Branch(photon, rng, m, albedo);
    f := Flight(z0, z1, c0, tau, scattered);
    if 1.0 < z1 {
      PositiveFactor(L, c0);
    }
    assert 0.0 <= z1 ==> photon.coords[0] == x1 && photon.coords[1] == y1;
  }

  /** Where a pass leaves the packet, `start` being the position of its
      optical-depth draw: below the slab it is back at the origin with the
      direction of `__init__` from the next two draws; otherwise it has
      moved L along its old direction, and that direction is the one
      `isotropic_scatter` gives from the two draws after xi when it
      scattered and the old one when it did not. */
  twostate predicate OoPassEffect(photon: PhotonPacket, m: Maths.Math, draws: nat -> real, start: nat, L: real, f: Flight)
    reads photon, photon.coords
  {
    && (f.zPost < 0.0 ==>
          photon.coords[..] == [0.0, 0.0, 0.0] && photon.InitWith(m, draws(start + 1), draws(start + 2)))
    && (0.0 <= f.zPost ==>
          photon.coords == old(photon.coords) && photon.coords.Length == 3 &&
          photon.coords[0] == old(photon.coords[0]) + L * old(photon.sinTheta) * old(photon.cosPhi) &&
          photon.coords[1] == old(photon.coords[1]) + L * old(photon.sinTheta) * old(photon.sinPhi))
    && (f.scattered ==> photon.ScatterWith(m, draws(start + 2), draws(start + 3)))
    && (!f.scattered && 0.0 <= f.zPost ==> photon.HeadingOf() == old(photon.HeadingOf()))
  }

  /** The start of a pass: `L = -np.log(np.random.rand()) / tau_max`, then
      the move. */
  method Advance(photon: PhotonPacket, rng: Rng, m: Maths.Math, tauMax: real) returns (tau: real, L: real)
    requires Maths.LogLaw(m) && OpenUnit(rng) && 0.0 < tauMax && photon.coords.Length == 3
    modifies photon.coords, rng
    ensures rng.pos == old(rng.pos) + 1
    ensures tau == -1.0 * m.log(rng.draws(old(rng.pos))) && 0.0 <= tau && L == tau / tauMax && 0.0 <= L
    ensures photon.coords[0] == old(photon.coords[0]) + L * old(photon.sinTheta) * old(photon.cosPhi)
    ensures photon.coords[1] == old(photon.coords[1]) + L * old(photon.sinTheta) * old(photon.sinPhi)
    ensures photon.coords[2] == old(photon.coords[2]) + L * old(photon.cosTheta)
  {
    tau := SampleTau(rng, m);
    L := tau / tauMax;
    DivNonNegative(tau, tauMax);
    Move(photon, L);
  }

  /** `transport_photon_packet(photon, tau_max, albedo)` with at most `fuel`
      passes. `completed` says the loop ended for one of its own reasons:
      the packet escaped (above the slab with `escaped` set, the direction
      of its last, unscattered flight, which points up) or it was absorbed
      (inside the slab, after a draw at or above the albedo, so albedo < 1).
      A packet that starts inside the slab and not escaped ends escaped
      exactly when it is above the slab. */
  method TransportPhotonPacket(photon: PhotonPacket, tauMax: real, albedo: real, rng: Rng, m: Maths.Math, fuel: nat)
    returns (completed: bool, ghost flights: seq<Flight>)
    requires Maths.SqrtLaw(m) && Maths.LogLaw(m) && Maths.TrigLaw(m) && OpenUnit(rng) && 0.0 < tauMax
    requires photon.Drawn(m)
    modifies photon, photon.coords, rng
    ensures photon.Drawn(m) && |flights| <= fuel && FromSlab(flights)
    ensures flights != [] ==> flights[0].zPre == old(photon.coords[2]) && flights[0].cosTheta == old(photon.cosTheta)
    ensures !old(photon.escaped) && 0.0 <= old(photon.coords[2]) <= 1.0 ==>
              (photon.escaped <==> EscapeCosine(flights) != []) &&
              (photon.escaped ==> EscapeCosine(flights) == [photon.cosTheta])
    ensures !completed ==> |flights| == fuel && 0.0 <= photon.coords[2] <= 1.0
    ensures 0.0 <= old(photon.coords[2]) ==> 0.0 <= photon.coords[2]
    ensures 0.0 <= old(photon.coords[2]) <= 1.0 && completed ==> flights != []
    ensures !old(photon.escaped) && 0.0 <= old(photon.coords[2]) <= 1.0 ==>
              (photon.escaped <==> 1.0 < photon.coords[2])
    ensures completed && flights != [] && photon.coords[2] <= 1.0 ==>
              albedo < 1.0 && !flights[|flights| - 1].scattered
    ensures 1.0 < photon.coords[2] && flights != [] ==>
              var last := flights[|flights| - 1];
              last.zPost == photon.coords[2] && last.cosTheta == photon.cosTheta && !last.scattered &&
              0.0 < photon.cosTheta < 1.0
  {
    flights := [];
    var left := fuel;
    var absorbed := false;
    while 0.0 <= photon.coords[2] <= 1.0 && !absorbed && 0 < left
      invariant photon.coords == old(photon.coords) || fresh(photon.coords)
      invariant photon.Drawn(m) && |flights| + left == fuel && FromSlab(flights)
      invariant flights == [] ==>
                  photon.coords[2] == old(photon.coords[2]) && photon.cosTheta == old(photon.cosTheta) &&
                  photon.escaped == old(photon.escaped) && !absorbed
      invariant flights != [] ==> 0.0 <= photon.coords[2]
      invariant flights != [] ==> flights[0].zPre == old(photon.coords[2]) && flights[0].cosTheta == old(photon.cosTheta)
      invariant flights != [] && photon.coords[2] <= 1.0 ==> EscapeCosine(flights) == []
      invariant flights != [] && !old(photon.escaped) ==> (photon.escaped <==> 1.0 < photon.coords[2])
      invariant absorbed ==> flights != [] && albedo < 1.0 && !flights[|flights| - 1].scattered
      invariant 1.0 < photon.coords[2] && flights != [] ==>
                  var last := flights[|flights| - 1];
                  last.zPost == photon.coords[2] && last.cosTheta == photon.cosTheta && !last.scattered &&
                  0.0 < photon.cosTheta
      decreases left
    {
      left := left - 1;
      var L;
      ghost var f;
      absorbed, L, f := Pass(photon, rng, m, albedo, tauMax);
      flights := flights + [f];
    }
    completed := !(0.0 <= photon.coords[2] <= 1.0) || absorbed;
  }

  /** What one packet of `main` did: at most `fuel` passes, the first from
      the origin, all from inside the slab, all `fuel` of them unless its
      transport completed; an escape cosine (if any) in (0,1); and, since
      ALBEDO = 1 absorbs nothing, an escape whenever it completed. */
  predicate MainRun(run: seq<Flight>, done: bool, fuel: nat)
  {
    && |run| <= fuel && FromSlab(run) && (run != [] ==> run[0].zPre == 0.0)
    && (!done ==> |run| == fuel)
    && (EscapeCosine(run) != [] ==> 0.0 < EscapeCosine(run)[0] < 1.0)
    && (done ==> EscapeCosine(run) != [])
  }

  /** One photon of the loop of `main`: a fresh packet, its transport, and
      `bin_photon` of its cosine when it escaped, which is the direction of
      its last pass out through the top; the histogram of the earlier
      escapes is extended by the run's escape cosine. */
  method RunPacket(hist: array<real>, ghost escapes: seq<real>, rng: Rng, m: Maths.Math, fuel: nat)
    returns (completed: bool, ghost run: seq<Flight>)
    requires Maths.SqrtLaw(m) && Maths.LogLaw(m) && Maths.TrigLaw(m) && OpenUnit(rng)
    requires hist.Length == N_BINS && hist[..] == ToReals(Histogram(escapes, N_BINS))
    modifies hist, rng
    ensures hist[..] == ToReals(Histogram(escapes + EscapeCosine(run), N_BINS))
    ensures MainRun(run, completed, fuel)
    ensures run != [] ==> run[0].cosTheta == m.sqrt(rng.draws(old(rng.pos)))
  {
    var pp := new PhotonPacket(rng, m);
    completed, run := TransportPhotonPacket(pp, TAU_MAX, ALBEDO, rng, m, fuel);
    if pp.escaped {
      HistogramRealSnoc(escapes, pp.cosTheta, N_BINS);
      BinPhoton(hist, pp.cosTheta, N_BINS);
    } else {
      assert escapes + EscapeCosine(run) == escapes;
    }
  }

  /** `main()` with at most `fuel` passes per packet: N_PHOTONS packets,
      each binned when it escaped, then the intensity conversion. Packet k's
      passes are `runs[k]`; the histogram is that of the escape cosines of
      the runs, each in (0,1); the intensity of every bin is that of its
      count at the bin-centre cosine, and is non-negative. With ALBEDO = 1
      no draw is at or above the albedo, so when every transport finished
      every packet escaped. */
  method RunMain(rng: Rng, m: Maths.Math, fuel: nat)
    returns (thetaBins: array<real>, intensity: seq<real>, completed: bool,
             ghost runs: seq<seq<Flight>>, ghost dones: seq<bool>)
    requires Maths.Valid(m) && OpenUnit(rng)
    modifies rng
    ensures fresh(thetaBins) && thetaBins.Length == N_BINS && |intensity| == N_BINS
    ensures forall i :: 0 <= i < N_BINS ==> thetaBins[i] == m.acos(BinCentre(i, N_BINS))
    ensures |runs| == N_PHOTONS && |dones| == N_PHOTONS
    ensures forall k :: 0 <= k < N_PHOTONS ==> MainRun(runs[k], dones[k], fuel)
    ensures completed <==> false !in dones
    ensures |EscapeCosines(runs)| <= N_PHOTONS
    ensures forall i :: 0 <= i < |EscapeCosines(runs)| ==> 0.0 < EscapeCosines(runs)[i] < 1.0
    ensures completed ==> |EscapeCosines(runs)| == N_PHOTONS
    ensures forall i :: 0 <= i < N_BINS ==>
              0.0 < BinCentre(i, N_BINS) &&
              intensity[i] == Intensity(Histogram(EscapeCosines(runs), N_BINS)[i] as real, N_BINS, N_PHOTONS, BinCentre(i, N_BINS)) &&
              0.0 <= intensity[i]
  {
    var hist;
    hist, thetaBins := InitHist(N_BINS, m);
    completed := true;
    runs, dones := [], [];
    for i := 0 to N_PHOTONS
      invariant fresh(hist) && fresh(thetaBins) && hist != thetaBins && hist.Length == N_BINS && thetaBins.Length == N_BINS
      invariant forall k :: 0 <= k < N_BINS ==> thetaBins[k] == m.acos(BinCentre(k, N_BINS))
      invariant |runs| == i && |dones| == i
      invariant forall k :: 0 <= k < i ==> MainRun(runs[k], dones[k], fuel)
      invariant completed <==> false !in dones
      invariant hist[..] == ToReals(Histogram(EscapeCosines(runs), N_BINS))
    {
      var done;
      ghost var run;
      done, run := RunPacket(hist, EscapeCosines(runs), rng, m, fuel);
      EscapeCosinesSnoc(runs, run);
      completed := completed && done;
      runs, dones := runs + [run], dones + [done];
    }
    EscapeCosinesBounds(runs);
    IntensityOfBins(hist[..], thetaBins[..], N_BINS, N_PHOTONS, m);
    intensity := CalculateIntensity(hist[..], thetaBins[..], N_BINS, N_PHOTONS, m);
  }
}
