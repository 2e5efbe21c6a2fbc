/** The Python revision Python/plane.py: functions that return a fresh
    position array and a fresh direction array, and `transport_photons`,
    which moves each photon's position array in place, re-emits it below the
    slab, bins it when it escapes through the top and drops it when it is
    absorbed. The draws are `np.random.rand()`, in [0,1), with 0 excluded
    (it makes `-log(0)` infinite). */
module PyPlane {
  import opened Numeric
  import Maths
  import opened Random
  import opened Bins
  import opened EarlyTransport
  import opened PyHist

  /** The direction array `[costheta, sintheta, cosphi, sinphi]`; it is never
      updated in place, only replaced. */
  datatype Direction = Direction(cosTheta: real, sinTheta: real, cosPhi: real, sinPhi: real)

  /** A direction as both samplers build it from draws in (0,1):
      -1 < cos theta < 1 with sin theta = sqrt(1 - cos^2 theta), and cos phi
      in [-1,1] with sin phi = sqrt(1 - cos^2 phi). */
  ghost predicate Drawn(d: Direction, m: Maths.Math)
  {
    && -1.0 < d.cosTheta < 1.0 && d.sinTheta == Maths.SineOf(m, d.cosTheta)
    && -1.0 <= d.cosPhi <= 1.0 && d.sinPhi == Maths.SineOf(m, d.cosPhi)
  }

  /** Both sines of a drawn direction are non-negative (so sin phi >= 0: the
      azimuth is confined to [0, pi]) and complete their cosines to unit
      vectors. */
  lemma DrawnUnit(d: Direction, m: Maths.Math)
    requires Maths.SqrtLaw(m) && Drawn(d, m)
    ensures 0.0 <= d.sinTheta && d.cosTheta * d.cosTheta + d.sinTheta * d.sinTheta == 1.0
    ensures 0.0 <= d.sinPhi && d.cosPhi * d.cosPhi + d.sinPhi * d.sinPhi == 1.0
  {
    Maths.SineOfCosine(m, d.cosTheta);
    Maths.SineOfCosine(m, d.cosPhi);
  }

  /** The direction `emit_photon` returns from the draws xi1, xi2:
      cos theta = sqrt(xi1), cos phi = cos(2 pi xi2), each sine as
      sqrt(1 - cos^2). */
  function EmittedDirection(m: Maths.Math, xi1: real, xi2: real): Direction
  {
    var cosTheta := m.sqrt(xi1);
    var cosPhi := m.cos(Maths.Azimuth(m, xi2));
    Direction(cosTheta, Maths.SineOf(m, cosTheta), cosPhi, Maths.SineOf(m, cosPhi))
  }

  /** The direction `isotropic_direction` returns from the draws xi1, xi2:
      cos theta = 2 xi1 - 1, cos phi = cos(2 pi xi2), each sine as
      sqrt(1 - cos^2). */
  function IsotropicFrom(m: Maths.Math, xi1: real, xi2: real): Direction
  {
    var cosTheta := 2.0 * xi1 - 1.0;
    var cosPhi := m.cos(Maths.Azimuth(m, xi2));
    Direction(cosTheta, Maths.SineOf(m, cosTheta), cosPhi, Maths.SineOf(m, cosPhi))
  }

  /** How a photon's loop ended: escaped through the top with the given
      direction cosine, absorbed inside the slab, or still in flight when
      the passes the model allows ran out. */
  datatype Fate = Escaped(cosTheta: real) | Absorbed | InFlight

  /** `emit_photon()`: draws xi1, xi2; cos theta = sqrt(xi1), in (0,1), and
      cos phi = cos(2 pi xi2); a fresh position array at the origin. */
  method EmitPhoton(rng: Rng, m: Maths.Math) returns (pos: array<real>, d: Direction)
    modifies rng
    ensures fresh(pos) && pos[..] == [0.0, 0.0, 0.0]
    ensures rng.pos == old(rng.pos) + 2
    ensures d == EmittedDirection(m, rng.draws(old(rng.pos)), rng.draws(old(rng.pos) + 1))
    ensures Maths.SqrtLaw(m) && Maths.TrigLaw(m) && OpenUnit(rng) ==> Drawn(d, m) && 0.0 < d.cosTheta
  {
    var xi1 := rng.Uniform();
    var xi2 := rng.Uniform();
    var cosTheta := m.sqrt(xi1);
    var cosPhi := m.cos(Maths.Azimuth(m, xi2));
    pos := new real[3](_ => 0.0);
    d := Direction(cosTheta, Maths.SineOf(m, cosTheta), cosPhi, Maths.SineOf(m, cosPhi));
    if Maths.SqrtLaw(m) && Maths.TrigLaw(m) && OpenUnit(rng) {
      Maths.SqrtUnit(m, xi1);
      Maths.TrigBounds(m, Maths.Azimuth(m, xi2));
    }
  }

  /** `isotropic_direction()`: draws xi1, xi2; cos theta = 2 xi1 - 1, in
      (-1,1), and cos phi = cos(2 pi xi2). */
  method IsotropicDirection(rng: Rng, m: Maths.Math) returns (d: Direction)
    modifies rng
    ensures rng.pos == old(rng.pos) + 2
    ensures d == IsotropicFrom(m, rng.draws(old(rng.pos)), rng.draws(old(rng.pos) + 1))
    ensures Maths.TrigLaw(m) && OpenUnit(rng) ==> Drawn(d, m)
  {
    var xi1 := rng.Uniform();
    var xi2 := rng.Uniform();
    var cosTheta := 2.0 * xi1 - 1.0;
    var cosPhi := m.cos(Maths.Azimuth(m, xi2));
    d := Direction(cosTheta, Maths.SineOf(m, cosTheta), cosPhi, Maths.SineOf(m, cosPhi));
    if Maths.TrigLaw(m) {
      Maths.TrigBounds(m, Maths.Azimuth(m, xi2));
    }
  }

  /** The in-place position update: `coord += length * (sin theta cos phi,
      sin theta sin phi, cos theta)`. */
  method Move(coord: array<real>, d: Direction, length: real)
    requires coord.Length == 3
    modifies coord
    ensures coord[..] == [old(coord[0]) + length * d.sinTheta * d.cosPhi,
                          old(coord[1]) + length * d.sinTheta * d.sinPhi,
                          old(coord[2]) + length * d.cosTheta]
  {
    coord[0] := coord[0] + length * d.sinTheta * d.cosPhi;
    coord[1] := coord[1] + length * d.sinTheta * d.sinPhi;
    coord[2] := coord[2] + length * d.cosTheta;
  }

  /** One pass of the while loop of `transport_photons` from inside the
      slab: length = -log(xi) / tau_max, move, then `Branch`. Unless the
      photon fell below the slab it has moved `length` along its direction;
      a re-emission uses the two draws after xi, a scattering the two after
      the albedo draw. */
  method Pass(coord: array<real>, d: Direction, rng: Rng, m: Maths.Math, albedo: real, tauMax: real)
    returns (coord': array<real>, d': Direction, fate: Fate, length: real, ghost f: Flight)
    requires Maths.SqrtLaw(m) && Maths.LogLaw(m) && Maths.TrigLaw(m) && OpenUnit(rng) && 0.0 < tauMax
    requires coord.Length == 3 && 0.0 <= coord[2] <= 1.0 && Drawn(d, m)
    modifies coord, rng
    ensures coord'.Length == 3 && (coord' == coord || fresh(coord'))
    ensures Drawn(d', m) && 0.0 <= coord'[2]
    ensures f.zPre == old(coord[2]) && f.cosTheta == d.cosTheta && 0.0 <= f.tau
    ensures f.tau == -1.0 * m.log(rng.draws(old(rng.pos))) && length == f.tau / tauMax
    ensures f.zPost == old(coord[2]) + length * d.cosTheta
    ensures rng.pos == old(rng.pos) + 1 + BranchDraws(f.zPost, f.scattered)
    ensures f.zPost < 0.0 ==>
              coord'[..] == [0.0, 0.0, 0.0] && fate == InFlight && !f.scattered && 0.0 < d'.cosTheta &&
              d' == EmittedDirection(m, rng.draws(old(rng.pos) + 1), rng.draws(old(rng.pos) + 2))
    ensures 0.0 <= f.zPost ==>
              coord'[0] == old(coord[0]) + length * d.sinTheta * d.cosPhi &&
              coord'[1] == old(coord[1]) + length * d.sinTheta * d.sinPhi
    ensures 1.0 < f.zPost ==> coord'[2] == f.zPost && d' == d && fate == Escaped(d.cosTheta) && !f.scattered
    ensures 1.0 < f.zPost ==> 0.0 < d.cosTheta
    ensures 0.0 <= f.zPost <= 1.0 ==>
              coord' == coord && coord'[2] == f.zPost &&
              (f.scattered <==> rng.draws(old(rng.pos) + 1) < albedo) &&
              (fate == InFlight <==> f.scattered) && (!f.scattered ==> d' == d && fate == Absorbed)
    ensures f.scattered ==> d' == IsotropicFrom(m, rng.draws(old(rng.pos) + 2), rng.draws(old(rng.pos) + 3))
    ensures fate == Absorbed ==> albedo < 1.0
  {
    var z0 := coord[2];
    var tau;
    tau, length := Travel(coord, d, rng, m, tauMax);
    var scattered;
    coord', d', fate, scattered := Branch(coord, d, rng, m, albedo);
    f := Flight(z0, z0 + length * d.cosTheta, d.cosTheta, tau, scattered);
    if 1.0 < f.zPost {
      PositiveFactor(length, d.cosTheta);
    }
  }

  /** The start of a pass: tau = -log(xi), length = tau / tau_max, both
      non-negative, and the move by `length`. */
  method Travel(coord: array<real>, d: Direction, rng: Rng, m: Maths.Math, tauMax: real)
    returns (tau: real, length: real)
    requires Maths.LogLaw(m) && OpenUnit(rng) && 0.0 < tauMax && coord.Length == 3
    modifies coord, rng
    ensures rng.pos == old(rng.pos) + 1
    ensures tau == -1.0 * m.log(rng.draws(old(rng.pos))) && length == tau / tauMax
    ensures 0.0 <= tau && 0.0 <= length
    ensures coord[..] == [old(coord[0]) + length * d.sinTheta * d.cosPhi,
                          old(coord[1]) + length * d.sinTheta * d.sinPhi,
                          old(coord[2]) + length * d.cosTheta]
  {
    tau := SampleTau(rng, m);
    length := tau / tauMax;
    DivNonNegative(tau, tauMax);
    Move(coord, d, length);
  }

  /** The draws the branch after a move takes: two for a re-emission below
      the slab, none above it, the albedo draw inside it and two more for a
      scattering. */
  function BranchDraws(z: real, scattered: bool): nat
  {
    if z < 0.0 then 2 else if 1.0 < z then 0 else if scattered then 3 else 1
  }

  /** The three branches that end a pass, on the moved position: below the
      slab the photon is re-emitted from the origin with no scattering draw;
      above it the photon escapes with the direction it flew; inside it a
      draw below the albedo scatters and any other absorbs. */
  method Branch(coord: array<real>, d: Direction, rng: Rng, m: Maths.Math, albedo: real)
    returns (coord': array<real>, d': Direction, fate: Fate, scattered: bool)
    requires Maths.SqrtLaw(m) && Maths.TrigLaw(m) && OpenUnit(rng)
    requires coord.Length == 3 && Drawn(d, m)
    modifies rng
    ensures coord'.Length == 3 && (coord' == coord || fresh(coord'))
    ensures Drawn(d', m) && 0.0 <= coord'[2]
    ensures rng.pos == old(rng.pos) + BranchDraws(coord[2], scattered)
    ensures coord[2] < 0.0 ==>
              fresh(coord') && coord'[..] == [0.0, 0.0, 0.0] && fate == InFlight && !scattered && 0.0 < d'.cosTheta &&
              d' == EmittedDirection(m, rng.draws(old(rng.pos)), rng.draws(old(rng.pos) + 1))
    ensures 1.0 < coord[2] ==> coord' == coord && d' == d && fate == Escaped(d.cosTheta) && !scattered
    ensures 0.0 <= coord[2] <= 1.0 ==>
              coord' == coord &&
              (scattered <==> rng.draws(old(rng.pos)) < albedo) &&
              (fate == InFlight <==> scattered) && (!scattered ==> d' == d && fate == Absorbed)
    ensures scattered ==> d' == IsotropicFrom(m, rng.draws(old(rng.pos) + 1), rng.draws(old(rng.pos) + 2))
    ensures fate == Absorbed ==> albedo < 1.0
  {
    scattered := false;
    if coord[2] < 0.0 {
      coord', d' := EmitPhoton(rng, m);
      fate := InFlight;
    } else if coord[2] > 1.0 {
      coord', d', fate := coord, d, Escaped(d.cosTheta);
    } else {
      coord' := coord;
      var xi := rng.Uniform();
      if xi < albedo {
        d' := IsotropicDirection(rng, m);
        scattered, fate := true, InFlight;
      } else {
        d', fate := d, Absorbed;
      }
    }
  }

  /** Scattering happens only at the end of a pass inside the slab. */
  predicate ScatteredInSlab(flights: seq<Flight>)
  {
    forall k :: 0 <= k < |flights| ==> (flights[k].scattered ==> 0.0 <= flights[k].zPost <= 1.0)
  }

  /** What one photon of `transport_photons` did: at most `fuel` passes,
      the first from the origin, all from inside the slab, scattering only
      inside it; it escaped exactly when its last pass left through the top
      unscattered, and then with that pass's direction cosine, in (0,1); an
      absorption ends it inside the slab and needs albedo < 1; it is still
      in flight only when the passes ran out. */
  predicate PhotonRun(run: seq<Flight>, fate: Fate, fuel: nat, albedo: real)
  {
    && |run| <= fuel && FromSlab(run) && ScatteredInSlab(run)
    && (run != [] ==> run[0].zPre == 0.0)
    && (fate == InFlight ==> |run| == fuel)
    && (fate.Escaped? <==> EscapeCosine(run) != [])
    && (fate.Escaped? ==> EscapeCosine(run) == [fate.cosTheta] && 0.0 < fate.cosTheta < 1.0)
    && (fate == Absorbed ==>
          run != [] && albedo < 1.0 && 0.0 <= run[|run| - 1].zPost <= 1.0 && !run[|run| - 1].scattered)
  }

  /** The life of one photon in `transport_photons`: emit, then the while
      loop for at most `fuel` passes. An escape ends it with the last
      flight's direction, which points up and is below 1, so its bin is one
      of the histogram's; an absorption ends it inside the slab with a draw
      at or above the albedo, which needs albedo < 1. */
  method TransportPhoton(rng: Rng, m: Maths.Math, albedo: real, tauMax: real, fuel: nat)
    returns (coord: array<real>, d: Direction, fate: Fate, ghost flights: seq<Flight>)
    requires Maths.SqrtLaw(m) && Maths.LogLaw(m) && Maths.TrigLaw(m) && OpenUnit(rng) && 0.0 < tauMax
    modifies rng
    ensures fresh(coord) && coord.Length == 3 && Drawn(d, m)
    ensures PhotonRun(flights, fate, fuel, albedo)
    ensures flights != [] ==> flights[0].cosTheta == m.sqrt(rng.draws(old(rng.pos)))
    ensures fate == InFlight ==> 0.0 <= coord[2] <= 1.0
    ensures fate.Escaped? ==> 1.0 < coord[2] && fate.cosTheta == d.cosTheta && flights[|flights| - 1].zPost == coord[2]
    ensures fate == Absorbed ==> flights[|flights| - 1].zPost == coord[2]
  {
    coord, d := EmitPhoton(rng, m);
    ghost var d0 := d;
    fate := InFlight;
    flights := [];
    var left := fuel;
    while fate == InFlight && 0 < left
      invariant fresh(coord) && coord.Length == 3 && Drawn(d, m)
      invariant |flights| + left == fuel && FromSlab(flights) && ScatteredInSlab(flights)
      invariant flights == [] ==> coord[2] == 0.0 && d == d0
      invariant flights != [] ==> flights[0].zPre == 0.0 && flights[0].cosTheta == d0.cosTheta
      invariant fate == InFlight ==> 0.0 <= coord[2] <= 1.0 && EscapeCosine(flights) == []
      invariant fate.Escaped? ==>
                  flights != [] && 1.0 < coord[2] && fate.cosTheta == d.cosTheta && 0.0 < d.cosTheta < 1.0 &&
                  var last := flights[|flights| - 1];
                  last.zPost == coord[2] && last.cosTheta == d.cosTheta && !last.scattered
      invariant fate == Absorbed ==>
                  flights != [] && 0.0 <= coord[2] <= 1.0 && albedo < 1.0 &&
                  var last := flights[|flights| - 1];
                  last.zPost == coord[2] && !last.scattered
      decreases left
    {
      left := left - 1;
      var length;
      ghost var f;
      coord, d, fate, length, f := Pass(coord, d, rng, m, albedo, tauMax);
      flights := flights + [f];
    }
  }

  /** `transport_photons(n_photons, tau_max, n_bins, albedo, output_freq)`
      with at most `fuel` passes per photon: the histogram of `init_hist`,
      then for each photon its transport, binning its escape cosine when it
      escapes. Photon k's passes are `runs[k]` and its fate `fates[k]`; the
      returned histogram is that of the escape cosines of the runs, each the
      direction of a last pass out through the top and in (0,1), so it
      totals their number, at most n_photons; when every photon finished and
      the albedo is at least 1 (no draw reaches 1, so none is absorbed)
      every photon escaped and the total is n_photons. */
  method TransportPhotons(nPhotons: nat, tauMax: real, nBins: nat, albedo: real, rng: Rng, m: Maths.Math, fuel: nat)
    returns (hist: array<real>, theta: array<real>, completed: bool,
             ghost runs: seq<seq<Flight>>, ghost fates: seq<Fate>)
    requires 1 <= nBins && 0.0 < tauMax
    requires Maths.SqrtLaw(m) && Maths.LogLaw(m) && Maths.TrigLaw(m) && OpenUnit(rng)
    modifies rng
    ensures fresh(hist) && fresh(theta) && hist.Length == nBins && theta.Length == nBins
    ensures forall i :: 0 <= i < nBins ==> theta[i] == m.acos(BinCentre(i, nBins))
    ensures |runs| == nPhotons && |fates| == nPhotons
    ensures forall k :: 0 <= k < nPhotons ==> PhotonRun(runs[k], fates[k], fuel, albedo)
    ensures completed <==> InFlight !in fates
    ensures hist[..] == ToReals(Histogram(EscapeCosines(runs), nBins))
    ensures SumReal(hist[..]) == |EscapeCosines(runs)| as real
    ensures |EscapeCosines(runs)| <= nPhotons
    ensures forall i :: 0 <= i < |EscapeCosines(runs)| ==> 0.0 < EscapeCosines(runs)[i] < 1.0
    ensures completed && 1.0 <= albedo ==> |EscapeCosines(runs)| == nPhotons
  {
    hist, theta := InitHist(nBins, m);
    completed := true;
    runs, fates := [], [];
    for i := 0 to nPhotons
      invariant fresh(hist) && fresh(theta) && hist != theta && hist.Length == nBins && theta.Length == nBins
      invariant forall k :: 0 <= k < nBins ==> theta[k] == m.acos(BinCentre(k, nBins))
      invariant |runs| == i && |fates| == i
      invariant forall k :: 0 <= k < i ==> PhotonRun(runs[k], fates[k], fuel, albedo)
      invariant completed <==> InFlight !in fates
      invariant hist[..] == ToReals(Histogram(EscapeCosines(runs), nBins))
    {
      var fate;
      ghost var run;
      fate, run := TransportAndBin(hist, EscapeCosines(runs), nBins, rng, m, albedo, tauMax, fuel);
      EscapeCosinesSnoc(runs, run);
      completed := completed && fate != InFlight;
      runs, fates := runs + [run], fates + [fate];
    }
    PhotonRunsBounds(runs, fates, fuel, albedo);
    HistogramRealTotal(EscapeCosines(runs), nBins);
  }

  /** The escapes of the photons of `transport_photons`: at most one each,
      all in (0,1), and one each when none is still in flight and the albedo
      is at least 1. */
  lemma PhotonRunsBounds(runs: seq<seq<Flight>>, fates: seq<Fate>, fuel: nat, albedo: real)
    requires |fates| == |runs| && forall k :: 0 <= k < |runs| ==> PhotonRun(runs[k], fates[k], fuel, albedo)
    ensures |EscapeCosines(runs)| <= |runs|
    ensures forall i :: 0 <= i < |EscapeCosines(runs)| ==> 0.0 < EscapeCosines(runs)[i] < 1.0
    ensures InFlight !in fates && 1.0 <= albedo ==> |EscapeCosines(runs)| == |runs|
  {
    EscapeCosinesBounds(runs);
  }

  /** One iteration of the photon loop of `transport_photons`: transport a
      photon and, when it escapes, bin its escape cosine, so the histogram
      of the earlier escapes becomes that of them and this one. */
  method TransportAndBin(hist: array<real>, ghost escapes: seq<real>, nBins: nat, rng: Rng, m: Maths.Math,
                         albedo: real, tauMax: real, fuel: nat)
    returns (fate: Fate, ghost run: seq<Flight>)
    requires 1 <= nBins && 0.0 < tauMax && hist.Length == nBins
    requires Maths.SqrtLaw(m) && Maths.LogLaw(m) && Maths.TrigLaw(m) && OpenUnit(rng)
    requires hist[..] == ToReals(Histogram(escapes, nBins))
    modifies hist, rng
    ensures hist[..] == ToReals(Histogram(escapes + EscapeCosine(run), nBins))
    ensures PhotonRun(run, fate, fuel, albedo)
  {
    var coord, d;
    coord, d, fate, run := TransportPhoton(rng, m, albedo, tauMax, fuel);
    if fate.Escaped? {
      HistogramRealSnoc(escapes, fate.cosTheta, nBins);
      BinPhoton(hist, fate.cosTheta, nBins);
    } else {
      assert escapes + EscapeCosine(run) == escapes;
    }
  }
}
