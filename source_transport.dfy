/** Photon transport and the driver of the earlier C/source revision
    (C/source/transport.c). Compared with C/src: the driver emits each packet
    and bins it; the albedo tests are strict, so a draw equal to the albedo
    neither scatters nor absorbs; the counter counts interactions (scatterings
    and the absorption), not flights; and the moments are those of
    C/source/moments.c. */
module SourceTransport {
  import opened Numeric
  import Maths
  import opened Random
  import opened CPhoton
  import opened SrcMoments
  import opened SourceMoments
  import opened Bins
  import opened MuHistogram
  import opened SrcTransport

  /** The azimuth sine as this revision computes it: sqrt(1 - cos^2 phi),
      never negative. */
  lemma AzimuthSine(m: Maths.Math, a: real)
    requires Maths.SqrtLaw(m) && Maths.TrigLaw(m)
    ensures 0.0 <= Maths.SineOf(m, m.cos(a))
  {
    Maths.TrigBounds(m, a);
    var c := m.cos(a);
    assert 0.0 <= 1.0 - c * c by {
      if 0.0 <= c { assert c * c <= c * 1.0; } else { assert c * c <= (-c) * 1.0; }
    }
  }

  /** A direction as this revision leaves it: |cos theta| < 1, sin theta and
      sin phi both computed as sqrt(1 - cos^2). */
  ghost predicate SourceDirection(p: Photon, m: Maths.Math)
    reads p
  {
    UnitDirection(p, m) && p.sinPhi == Maths.SineOf(m, p.cosPhi)
  }

  /** The packet `emit_photon` builds from the draws u1, u2: at the origin,
      cos theta = sqrt(u1) and cos phi = cos(2 pi u2), both sines as
      sqrt(1 - cos^2). */
  ghost predicate SourceEmitted(p: Photon, m: Maths.Math, u1: real, u2: real)
    reads p
  {
    && p.x == 0.0 && p.y == 0.0 && p.z == 0.0
    && p.cosTheta == m.sqrt(u1) && p.sinTheta == Maths.SineOf(m, p.cosTheta)
    && p.cosPhi == m.cos(Maths.Azimuth(m, u2)) && p.sinPhi == Maths.SineOf(m, p.cosPhi)
  }

  /** The direction `isotropic_scatter` gives from the draws u1, u2:
      cos theta = 2 u1 - 1 and cos phi = cos(2 pi u2), both sines as
      sqrt(1 - cos^2). */
  ghost predicate SourceScattered(p: Photon, m: Maths.Math, u1: real, u2: real)
    reads p
  {
    && p.cosTheta == 2.0 * u1 - 1.0 && p.sinTheta == Maths.SineOf(m, p.cosTheta)
    && p.cosPhi == m.cos(Maths.Azimuth(m, u2)) && p.sinPhi == Maths.SineOf(m, p.cosPhi)
  }

  /** `emit_photon(packet)`: the packet restarts at the origin with
      cos theta = sqrt(U) and cos phi = cos(2 pi U'); `absorb` and `n_inters`
      are not touched. */
  method EmitPhoton(p: Photon, rng: Rng, m: Maths.Math)
    modifies p, rng
    ensures p.absorb == old(p.absorb) && p.nInters == old(p.nInters)
    ensures rng.pos == old(rng.pos) + 2
    ensures SourceEmitted(p, m, rng.draws(old(rng.pos)), rng.draws(old(rng.pos) + 1))
    ensures Maths.SqrtLaw(m) && OpenUnit(rng) ==> 0.0 < p.cosTheta < 1.0 && SourceDirection(p, m)
    ensures Maths.SqrtLaw(m) && Maths.TrigLaw(m) ==> 0.0 <= p.sinPhi
  {
    p.x := 0.0;
    p.y := 0.0;
    p.z := 0.0;
    var u1 := rng.Uniform();
    p.cosTheta := m.sqrt(u1);
    p.sinTheta := Maths.SineOf(m, p.cosTheta);
    var u2 := rng.Uniform();
    p.cosPhi := m.cos(Maths.Azimuth(m, u2));
    p.sinPhi := Maths.SineOf(m, p.cosPhi);
    if Maths.SqrtLaw(m) && OpenUnit(rng) {
      Maths.SqrtUnit(m, u1);
    }
    if Maths.SqrtLaw(m) && Maths.TrigLaw(m) {
      AzimuthSine(m, Maths.Azimuth(m, u2));
    }
  }

  /** `isotropic_scatter(packet)`: cos theta = 2U - 1 and
      cos phi = cos(2 pi U'); the position and the flags are kept. */
  method IsotropicScatter(p: Photon, rng: Rng, m: Maths.Math)
    modifies p, rng
    ensures p.x == old(p.x) && p.y == old(p.y) && p.z == old(p.z)
    ensures p.absorb == old(p.absorb) && p.nInters == old(p.nInters)
    ensures rng.pos == old(rng.pos) + 2
    ensures SourceScattered(p, m, rng.draws(old(rng.pos)), rng.draws(old(rng.pos) + 1))
    ensures OpenUnit(rng) ==> SourceDirection(p, m)
    ensures Maths.SqrtLaw(m) && Maths.TrigLaw(m) ==> 0.0 <= p.sinPhi
  {
    var u1 := rng.Uniform();
    p.cosTheta := 2.0 * u1 - 1.0;
    p.sinTheta := Maths.SineOf(m, p.cosTheta);
    var u2 := rng.Uniform();
    p.cosPhi := m.cos(Maths.Azimuth(m, u2));
    p.sinPhi := Maths.SineOf(m, p.cosPhi);
    if Maths.SqrtLaw(m) && Maths.TrigLaw(m) {
      AzimuthSine(m, Maths.Azimuth(m, u2));
    }
  }

  /** What happened after one flight of the transport loop. */
  datatype Outcome =
    | Reemitted   // the flight ended below the slab
    | Scattered   // inside, xi < albedo
    | Absorbed    // inside, xi > albedo
    | Kept        // inside, xi == albedo: neither
    | Escaped     // the flight ended above the slab

  /** The value of `n_inters` after a run of outcomes: scatterings and the
      absorption count one each, a re-emission starts again from zero. */
  function Interactions(trace: seq<Outcome>): nat
  {
    if trace == [] then 0
    else
      var last := trace[|trace| - 1];
      if last.Reemitted? then 0
      else Interactions(trace[..|trace| - 1]) + (if last.Scattered? || last.Absorbed? then 1 else 0)
  }

  /** The counter never exceeds the number of flights. */
  lemma {:induction false} InteractionsBound(trace: seq<Outcome>)
    ensures Interactions(trace) <= |trace|
  {
    if trace != [] {
      InteractionsBound(trace[..|trace| - 1]);
    }
  }

  /** With albedo at least 1 and draws below 1, the in-slab outcome is always
      a scattering. */
  lemma HighAlbedoScatters(xi: real, albedo: real)
    requires xi < 1.0 <= albedo
    ensures xi < albedo && !(xi > albedo) && xi != albedo
  {
  }

  /** The outcome of the in-slab draw xi against the albedo. */
  function InSlabOutcome(xi: real, albedo: real): (o: Outcome)
    ensures o.Scattered? <==> xi < albedo
    ensures o.Absorbed? <==> albedo < xi
    ensures o.Kept? <==> xi == albedo
  {
    if xi < albedo then Scattered else if xi > albedo then Absorbed else Kept
  }

  /** The draws the branch after a flight takes: two for a re-emission, xi
      and two for a scattering, xi alone for an absorption or for a draw
      equal to the albedo, none above the slab. */
  function BranchDraws(o: Outcome): nat
  {
    match o
    case Reemitted => 2
    case Scattered => 3
    case Absorbed => 1
    case Kept => 1
    case Escaped => 0
  }

  /** The position and direction a pass leaves, given the stream `draws`
      from position `start` on (the optical depth is draws(start)): a
      re-emitted packet is emitted with the next two draws, a scattered one
      is scattered with the two draws after xi, any other keeps its
      direction; unless re-emitted it has moved ds along its old direction. */
  twostate predicate SourcePassEffect(p: Photon, m: Maths.Math, draws: nat -> real, start: nat, ds: real, o: Outcome)
    reads p
  {
    && (o == Reemitted ==> SourceEmitted(p, m, draws(start + 1), draws(start + 2)))
    && (o == Scattered ==> SourceScattered(p, m, draws(start + 2), draws(start + 3)))
    && (o.Absorbed? || o.Kept? || o.Escaped? ==> HeadingOf(p) == old(HeadingOf(p)))
    && (o != Reemitted ==>
          && p.x == old(p.x) + ds * old(p.sinTheta) * old(p.cosPhi)
          && p.y == old(p.y) + ds * old(p.sinTheta) * old(p.sinPhi))
  }

  /** One pass of the loop of `transport_photon_const_rho`, from inside the
      slab: fly ds = -log(1 - U) / tau_max along the direction, call
      `calculate_moments` with the saved pre-flight height, then inside the
      slab draw xi and scatter on xi < albedo, absorb on xi > albedo, do
      nothing on equality, counting one interaction for a scattering or the
      absorption; below the slab re-emit the packet and reset the counter. */
  method SourceFlight(p: Photon, moments: JhkMoments, rng: Rng, m: Maths.Math, tauMax: real, albedo: real)
    returns (ds: real, ghost s: Step, ghost o: Outcome)
    requires moments.Valid() && Maths.SqrtLaw(m) && Maths.LogLaw(m) && OpenUnit(rng) && 0.0 < tauMax
    requires 0.0 <= p.z <= 1.0 && !p.absorb && SourceDirection(p, m)
    modifies p, rng, moments.Repr()
    ensures moments.Valid() && moments.State() == old(moments.State())
    ensures s.zPre == old(p.z) && s.cosTheta == old(p.cosTheta) && InSlabFlight(s)
    ensures ds == -m.log(1.0 - rng.draws(old(rng.pos))) / tauMax && s.zPost == old(p.z) + ds * old(p.cosTheta)
    ensures rng.pos == old(rng.pos) + 1 + BranchDraws(o)
    ensures SourceDirection(p, m) && 0.0 <= p.z
    ensures Agrees(s, o)
    ensures o == Reemitted ==> p.z == 0.0 && !p.absorb && p.nInters == 0
    ensures o != Reemitted ==> p.z == s.zPost
    ensures 0.0 <= s.zPost <= 1.0 ==> o == InSlabOutcome(rng.draws(old(rng.pos) + 1), albedo)
    ensures p.absorb <==> o == Absorbed
    ensures o != Reemitted ==> p.nInters == old(p.nInters) + (if o.Scattered? || o.Absorbed? then 1 else 0)
    ensures o == Escaped ==> p.cosTheta == s.cosTheta
    ensures SourcePassEffect(p, m, rng.draws, old(rng.pos), ds, o)
  {
    var zz := p.z;
    ds := Fly(p, rng, m, tauMax);
    s := Step(zz, p.z, p.cosTheta);
    InSlabFlightChangesNothing(moments.State(), s, moments.nLevels);
    moments.CalculateMoments(p.z, zz, p.cosTheta);
    o := SourceInteract(p, rng, m, albedo);
  }

  /** The branch that follows a flight in `transport_photon_const_rho`. */
  method SourceInteract(p: Photon, rng: Rng, m: Maths.Math, albedo: real) returns (ghost o: Outcome)
    requires Maths.SqrtLaw(m) && OpenUnit(rng) && !p.absorb && SourceDirection(p, m)
    modifies p, rng
    ensures SourceDirection(p, m)
    ensures old(p.z) < 0.0 <==> o == Reemitted
    ensures 1.0 < old(p.z) <==> o == Escaped
    ensures o == Reemitted ==> p.z == 0.0 && !p.absorb && p.nInters == 0
    ensures o != Reemitted ==> p.x == old(p.x) && p.y == old(p.y) && p.z == old(p.z)
    ensures 0.0 <= old(p.z) <= 1.0 ==> o == InSlabOutcome(rng.draws(old(rng.pos)), albedo)
    ensures p.absorb <==> o == Absorbed
    ensures o != Reemitted ==> p.nInters == old(p.nInters) + (if o.Scattered? || o.Absorbed? then 1 else 0)
    ensures rng.pos == old(rng.pos) + BranchDraws(o)
    ensures o == Reemitted ==> SourceEmitted(p, m, rng.draws(old(rng.pos)), rng.draws(old(rng.pos) + 1))
    ensures o == Scattered ==> SourceScattered(p, m, rng.draws(old(rng.pos) + 1), rng.draws(old(rng.pos) + 2))
    ensures o.Absorbed? || o.Kept? || o.Escaped? ==> HeadingOf(p) == old(HeadingOf(p))
  {
    if p.z >= 0.0 && p.z <= 1.0 {
      var xi := rng.Uniform();
      o := InSlabOutcome(xi, albedo);
      if xi < albedo && p.z <= 1.0 {
        IsotropicScatter(p, rng, m);
        p.nInters := p.nInters + 1;
      } else if xi > albedo {
        p.absorb := true;
        p.nInters := p.nInters + 1;
      }
    } else if p.z < 0.0 {
      EmitPhoton(p, rng, m);
      p.nInters := 0;
      o := Reemitted;
    } else {
      o := Escaped;
    }
  }

  /** A flight and the outcome recorded after it: a re-emission exactly
      when it ended below the slab, an escape exactly when above. */
  predicate Agrees(s: Step, o: Outcome)
  {
    (s.zPost < 0.0 <==> o == Reemitted) && (1.0 < s.zPost <==> o == Escaped)
  }

  /** Flights and outcomes recorded side by side: one outcome per flight,
      agreeing with it, every flight from inside the slab. */
  predicate Flown(trace: seq<Outcome>, steps: seq<Step>)
  {
    |steps| == |trace| && forall k :: 0 <= k < |trace| ==> Agrees(steps[k], trace[k]) && InSlabFlight(steps[k])
  }

  /** One more flight and its outcome: the record grows at the end, and the
      counter restarts on a re-emission and otherwise counts a scattering or
      the absorption. */
  lemma FlownSnoc(trace: seq<Outcome>, steps: seq<Step>, o: Outcome, s: Step)
    requires Flown(trace, steps) && Agrees(s, o) && InSlabFlight(s)
    ensures Flown(trace + [o], steps + [s])
    ensures Interactions(trace + [o]) ==
              if o == Reemitted then 0 else Interactions(trace) + (if o.Scattered? || o.Absorbed? then 1 else 0)
  {
    assert (trace + [o])[..|trace|] == trace;
  }

  /** A packet at height z with direction cosine c is where the last of
      `steps` left it: above the slab exactly when that flight ended above
      it, and then along that flight, upwards. */
  predicate Ended(steps: seq<Step>, z: real, c: real)
  {
    steps != [] ==>
      var last := steps[|steps| - 1];
      (1.0 < last.zPost <==> 1.0 < z) && (1.0 < z ==> 0.0 < c && last.zPost == z && last.cosTheta == c)
  }

  /** After one more flight from inside the slab, a packet re-emitted at
      the bottom or left where the flight ended, along it when it escaped,
      is where that flight left it. */
  lemma EndedSnoc(steps: seq<Step>, s: Step, o: Outcome, z: real, c: real)
    requires InSlabFlight(s) && Agrees(s, o)
    requires o == Reemitted ==> z == 0.0
    requires o != Reemitted ==> z == s.zPost
    requires o == Escaped ==> c == s.cosTheta
    ensures Ended(steps + [s], z, c)
  {
  }

  /** `transport_photon_const_rho(packet, moments)` with at most `fuel`
      flights: `absorb` and `n_inters` are reset, then the packet flies until
      it leaves the slab or is absorbed (the `break`). `steps` are its
      flights and `trace` what followed each. Started inside the slab, on
      completion it is either absorbed inside the slab or has left through
      the top along its last flight, upwards; the counter holds the
      interactions since the last re-emission; the moments never change;
      with albedo >= 1 no packet is absorbed. */
  method TransportPhotonConstRho(p: Photon, moments: JhkMoments, rng: Rng, m: Maths.Math,
                                 tauMax: real, albedo: real, fuel: nat)
    returns (completed: bool, ghost trace: seq<Outcome>, ghost steps: seq<Step>)
    requires moments.Valid() && Maths.SqrtLaw(m) && Maths.LogLaw(m) && OpenUnit(rng) && 0.0 < tauMax
    requires SourceDirection(p, m)
    modifies p, rng, moments.Repr()
    ensures moments.Valid() && moments.State() == old(moments.State())
    ensures Flown(trace, steps) && |trace| <= fuel && (!completed ==> |trace| == fuel)
    ensures steps != [] ==> steps[0].zPre == old(p.z) && steps[0].cosTheta == old(p.cosTheta)
    ensures p.nInters == Interactions(trace)
    ensures SourceDirection(p, m)
    ensures p.absorb <==> trace != [] && trace[|trace| - 1] == Absorbed
    ensures p.absorb ==> albedo < 1.0
    ensures completed && 0.0 <= old(p.z) ==> (p.absorb && 0.0 <= p.z <= 1.0) || (!p.absorb && 1.0 < p.z)
    ensures !completed ==> p.z <= 1.0
    ensures Ended(steps, p.z, p.cosTheta)
    ensures steps == [] ==> p.z == old(p.z)
  {
    p.absorb := false;
    p.nInters := 0;
    trace, steps := [], [];
    completed := true;
    var left := fuel;
    while p.z >= 0.0 && p.z <= 1.0
      invariant moments.Valid() && moments.State() == old(moments.State())
      invariant Flown(trace, steps) && |trace| + left == fuel && (!completed ==> left == 0)
      invariant steps != [] ==> steps[0].zPre == old(p.z) && steps[0].cosTheta == old(p.cosTheta)
      invariant p.nInters == Interactions(trace)
      invariant SourceDirection(p, m) && !p.absorb
      invariant trace == [] || 0.0 <= p.z
      invariant trace == [] ==> p.z == old(p.z) && p.cosTheta == old(p.cosTheta)
      invariant Ended(steps, p.z, p.cosTheta)
      invariant trace != [] ==> trace[|trace| - 1] != Absorbed
      modifies p, rng, moments.Repr()
      decreases left
    {
      if left == 0 {
        completed := false;
        break;
      }
      left := left - 1;
      ghost var xi := rng.draws(rng.pos + 1);
      var ds;
      ghost var s, o;
      ds, s, o := SourceFlight(p, moments, rng, m, tauMax, albedo);
      FlownSnoc(trace, steps, o, s);
      EndedSnoc(steps, s, o, p.z, p.cosTheta);
      trace, steps := trace + [o], steps + [s];
      if p.absorb {
        assert albedo < xi < 1.0;
        break;
      }
    }
  }

  /** What one packet of this revision's `start_mcrt` did: its outcomes
      `trace` and its flights `run` agree flight by flight, its counter
      `inters` is the number of interactions in the trace, and the flights
      are an `EscapeRun`. */
  predicate SourcePacketRun(trace: seq<Outcome>, run: seq<Step>, fuel: nat, done: bool, inters: int, albedo: real)
  {
    Flown(trace, run) && inters == Interactions(trace) && EscapeRun(run, fuel, done, albedo)
  }

  /** `SourcePacketRun` for every packet of a photon loop, packet by packet. */
  predicate SourcePacketRuns(traces: seq<seq<Outcome>>, runs: seq<seq<Step>>, dones: seq<bool>, inters: seq<int>,
                             fuel: nat, albedo: real)
  {
    && |traces| == |runs| && |dones| == |runs| && |inters| == |runs|
    && (runs != [] ==>
          var n := |runs| - 1;
          SourcePacketRuns(traces[..n], runs[..n], dones[..n], inters[..n], fuel, albedo)
          && SourcePacketRun(traces[n], runs[n], fuel, dones[n], inters[n], albedo))
  }

  /** `SourcePacketRuns` holds of a loop's packets exactly when
      `SourcePacketRun` holds of each of them. */
  lemma {:induction false} SourcePacketRunsIndex(traces: seq<seq<Outcome>>, runs: seq<seq<Step>>, dones: seq<bool>,
                                                 inters: seq<int>, fuel: nat, albedo: real)
    requires |traces| == |runs| && |dones| == |runs| && |inters| == |runs|
    ensures SourcePacketRuns(traces, runs, dones, inters, fuel, albedo) <==>
              forall k :: 0 <= k < |runs| ==> SourcePacketRun(traces[k], runs[k], fuel, dones[k], inters[k], albedo)
  {
    if runs != [] {
      var n := |runs| - 1;
      SourcePacketRunsIndex(traces[..n], runs[..n], dones[..n], inters[..n], fuel, albedo);
    }
  }

  /** The bookkeeping of one more packet of the photon loop: its run joins
      the others, `completed` stays true only if it completed, its counter
      joins the sum and its escape (if any) the histogram. */
  lemma NextPacket(traces: seq<seq<Outcome>>, runs: seq<seq<Step>>, dones: seq<bool>, inters: seq<int>,
                   trace: seq<Outcome>, run: seq<Step>, done: bool, n: int, fuel: nat, albedo: real)
    requires SourcePacketRuns(traces, runs, dones, inters, fuel, albedo)
    requires SourcePacketRun(trace, run, fuel, done, n, albedo)
    ensures SourcePacketRuns(traces + [trace], runs + [run], dones + [done], inters + [n], fuel, albedo)
    ensures (false !in dones + [done]) <==> (false !in dones) && done
    ensures Escapes(runs + [run]) == Escapes(runs) + EscapeOf(run)
    ensures Sum(inters + [n]) == Sum(inters) + n
  {
    assert (traces + [trace])[..|runs|] == traces;
    assert (runs + [run])[..|runs|] == runs;
    assert (dones + [done])[..|runs|] == dones;
    assert (inters + [n])[..|runs|] == inters;
  }

  /** `start_mcrt()`, run sequentially: a zeroed histogram and moments, then
      the n_photons packets (`RunPackets`), then the intensities and the
      truncated average. Packet k's outcomes are `traces[k]` and its flights
      `runs[k]`; its counter, summed into `total_inters`, is the number of
      interactions in its trace; the histogram holds exactly the escape
      cosines of the runs, each upward, never more than the packets sent and
      all of them when albedo >= 1; the moments stay zero. */
  method StartMcrt(nPhotons: nat, muBins: nat, nLevels: nat, tauMax: real, albedo: real,
                   rng: Rng, m: Maths.Math, fuel: nat)
    returns (completed: bool, totalInters: int, averageInters: int,
             hist: MuHist, moments: JhkMoments, intens: array<real>,
             ghost inters: seq<int>, ghost traces: seq<seq<Outcome>>, ghost runs: seq<seq<Step>>, ghost dones: seq<bool>)
    requires 1 <= nPhotons && 1 <= muBins && 0.0 < tauMax
    requires Maths.SqrtLaw(m) && Maths.LogLaw(m) && Maths.AcosLaw(m) && OpenUnit(rng)
    modifies rng
    ensures fresh(hist) && fresh(hist.bins) && fresh(moments) && fresh(intens)
    ensures hist.Valid() && hist.muBins == muBins && moments.Valid()
    ensures moments.State() == SourceZero(nLevels)
    ensures |inters| == nPhotons && |traces| == nPhotons && |runs| == nPhotons && |dones| == nPhotons
    ensures forall k :: 0 <= k < nPhotons ==> SourcePacketRun(traces[k], runs[k], fuel, dones[k], inters[k], albedo)
    ensures completed <==> forall k :: 0 <= k < nPhotons ==> dones[k]
    ensures hist.escapes == Escapes(runs)
    ensures totalInters == Sum(inters)
    ensures averageInters == Trunc(totalInters as real / nPhotons as real)
    ensures |hist.escapes| <= nPhotons && (completed && 1.0 <= albedo ==> |hist.escapes| == nPhotons)
    ensures forall k :: 0 <= k < |hist.escapes| ==> 0.0 < hist.escapes[k] < 1.0
    ensures Sum(hist.bins[..]) == |hist.escapes|
    ensures intens.Length == muBins
    ensures forall i :: 0 <= i < muBins ==>
              0.0 < BinCentre(i, muBins) &&
              intens[i] == Intensity(hist.bins[i] as real, muBins, nPhotons, BinCentre(i, muBins))
  {
    hist := new MuHist.InitPhotonHist(muBins, m);
    moments := new JhkMoments.InitJhk(nLevels);
    completed, totalInters, inters, traces, runs, dones := RunPackets(nPhotons, hist, moments, rng, m, tauMax, albedo, fuel);
    intens := new real[muBins];
    hist.CalculateIntensity(intens, nPhotons);
    averageInters := Trunc(totalInters as real / nPhotons as real);
    HistogramTotal(hist.escapes, muBins);
  }

  /** The photon loop of `start_mcrt`: n_photons packets emitted and
      transported one after another in the same packet variable, into a
      histogram that starts empty. */
  method RunPackets(nPhotons: nat, hist: MuHist, moments: JhkMoments, rng: Rng, m: Maths.Math,
                    tauMax: real, albedo: real, fuel: nat)
    returns (completed: bool, totalInters: int, ghost inters: seq<int>,
             ghost traces: seq<seq<Outcome>>, ghost runs: seq<seq<Step>>, ghost dones: seq<bool>)
    requires hist.Valid() && moments.Valid() && hist.theta !in moments.Repr() && hist.escapes == []
    requires Maths.SqrtLaw(m) && Maths.LogLaw(m) && OpenUnit(rng) && 0.0 < tauMax
    modifies rng, hist, hist.bins, moments.Repr()
    ensures hist.Valid() && moments.Valid() && moments.State() == old(moments.State())
    ensures |inters| == nPhotons && |traces| == nPhotons && |runs| == nPhotons && |dones| == nPhotons
    ensures forall k :: 0 <= k < nPhotons ==> SourcePacketRun(traces[k], runs[k], fuel, dones[k], inters[k], albedo)
    ensures completed <==> forall k :: 0 <= k < nPhotons ==> dones[k]
    ensures hist.escapes == Escapes(runs)
    ensures totalInters == Sum(inters)
    ensures |hist.escapes| <= nPhotons && (completed && 1.0 <= albedo ==> |hist.escapes| == nPhotons)
    ensures forall k :: 0 <= k < |hist.escapes| ==> 0.0 < hist.escapes[k] < 1.0
  {
    var packet := new Photon();
    totalInters := 0;
    completed := true;
    inters, traces, runs, dones := [], [], [], [];
    for photonCount := 1 to nPhotons + 1
      invariant hist.Valid() && moments.Valid() && moments.State() == old(moments.State())
      invariant |runs| == photonCount - 1
      invariant SourcePacketRuns(traces, runs, dones, inters, fuel, albedo)
      invariant completed <==> false !in dones
      invariant hist.escapes == Escapes(runs)
      invariant totalInters == Sum(inters)
    {
      var done, trace, run := RunPacket(packet, hist, moments, rng, m, tauMax, albedo, fuel);
      NextPacket(traces, runs, dones, inters, trace, run, done, packet.nInters, fuel, albedo);
      completed := completed && done;
      totalInters := totalInters + packet.nInters;
      inters := inters + [packet.nInters];
      traces, runs, dones := traces + [trace], runs + [run], dones + [done];
    }
    SourceRunsBounds(traces, runs, dones, inters, fuel, albedo);
  }

  /** What the packets of a photon loop add up to: each is a
      `SourcePacketRun`; they completed when none ran out of fuel; their
      escapes, one per packet at most and one per packet when all completed
      with albedo >= 1, all point up. */
  lemma SourceRunsBounds(traces: seq<seq<Outcome>>, runs: seq<seq<Step>>, dones: seq<bool>, inters: seq<int>,
                         fuel: nat, albedo: real)
    requires SourcePacketRuns(traces, runs, dones, inters, fuel, albedo)
    ensures |traces| == |runs| && |dones| == |runs| && |inters| == |runs|
    ensures forall k :: 0 <= k < |runs| ==> SourcePacketRun(traces[k], runs[k], fuel, dones[k], inters[k], albedo)
    ensures (false !in dones) <==> forall k :: 0 <= k < |dones| ==> dones[k]
    ensures |Escapes(runs)| <= |runs| && ((false !in dones) && 1.0 <= albedo ==> |Escapes(runs)| == |runs|)
    ensures forall k :: 0 <= k < |Escapes(runs)| ==> 0.0 < Escapes(runs)[k] < 1.0
  {
    SourcePacketRunsIndex(traces, runs, dones, inters, fuel, albedo);
    EscapesBounds(runs, dones, fuel, albedo);
  }

  /** The body of the driver loop of `start_mcrt`: emit the packet,
      transport it, and bin its direction when it was not absorbed. The
      histogram gains the run's escape cosine, if any, which is the
      direction of the packet and of its last flight out through the top,
      and is there exactly when the packet completed unabsorbed; its first
      flight starts at the bottom with cos theta = sqrt(U). */
  method RunPacket(packet: Photon, hist: MuHist, moments: JhkMoments, rng: Rng, m: Maths.Math,
                   tauMax: real, albedo: real, fuel: nat)
    returns (done: bool, ghost trace: seq<Outcome>, ghost run: seq<Step>)
    requires hist.Valid() && moments.Valid() && hist.theta !in moments.Repr()
    requires Maths.SqrtLaw(m) && Maths.LogLaw(m) && OpenUnit(rng) && 0.0 < tauMax
    modifies packet, rng, hist, hist.bins, moments.Repr()
    ensures hist.Valid() && moments.Valid() && moments.State() == old(moments.State())
    ensures SourcePacketRun(trace, run, fuel, done, packet.nInters, albedo)
    ensures run != [] ==> run[0].zPre == 0.0 && run[0].cosTheta == m.sqrt(rng.draws(old(rng.pos)))
    ensures hist.escapes == old(hist.escapes) + EscapeOf(run)
    ensures EscapeOf(run) != [] <==> done && !packet.absorb
    ensures EscapeOf(run) != [] ==> EscapeOf(run) == [packet.cosTheta]
  {
    EmitPhoton(packet, rng, m);
    assert hist !in moments.Repr() && hist.bins !in moments.Repr();
    done, trace, run := TransportPhotonConstRho(packet, moments, rng, m, tauMax, albedo, fuel);
    assert hist.Valid();
    if done && !packet.absorb {
      assert EscapeOf(run) == [packet.cosTheta];
    } else {
      assert EscapeOf(run) == [];
    }
    ghost var state, cosTheta, absorb, nInters := moments.State(), packet.cosTheta, packet.absorb, packet.nInters;
    BinEscape(hist, run, done && !packet.absorb, packet.cosTheta);
    assert moments.State() == state && packet.cosTheta == cosTheta && packet.absorb == absorb && packet.nInters == nInters;
  }
}
