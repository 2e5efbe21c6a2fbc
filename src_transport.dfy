/** Photon transport and the simulation driver of the C/src revision
    (C/src/transport.c): a packet is emitted at the bottom of the slab, flies
    optical depths drawn from an exponential distribution, is re-emitted when
    it falls out of the bottom, scatters or is absorbed at each interaction
    inside the slab, and is binned by escape angle when it leaves through the
    top. Every flight is recorded by the moment estimators. */
module SrcTransport {
  import opened Numeric
  import Maths
  import opened Random
  import opened CPhoton
  import opened SrcMoments
  import opened Bins
  import opened MuHistogram

  /** `random_tau()`: an optical depth -log(1 - U). */
  method RandomTau(rng: Rng, m: Maths.Math) returns (tau: real)
    modifies rng
    ensures rng.pos == old(rng.pos) + 1
    ensures tau == -m.log(1.0 - rng.draws(old(rng.pos)))
    ensures Maths.LogLaw(m) && OpenUnit(rng) ==> 0.0 < tau
  {
    var u := rng.Uniform();
    tau := -m.log(1.0 - u);
    assert OpenUnit(rng) ==> 0.0 < 1.0 - u < 1.0;
  }

  /** `random_theta_phi(&theta, &phi)`: theta = acos(2U - 1), phi = 2 pi U',
      two draws in that order. */
  method RandomThetaPhi(rng: Rng, m: Maths.Math) returns (theta: real, phi: real)
    modifies rng
    ensures rng.pos == old(rng.pos) + 2
    ensures theta == m.acos(2.0 * rng.draws(old(rng.pos)) - 1.0)
    ensures phi == Maths.Azimuth(m, rng.draws(old(rng.pos) + 1))
  {
    var u1 := rng.Uniform();
    theta := m.acos(2.0 * u1 - 1.0);
    var u2 := rng.Uniform();
    phi := Maths.Azimuth(m, u2);
  }

  /** The polar direction of a packet is a proper one: |cos theta| < 1 and
      sin theta is computed from it. */
  ghost predicate UnitDirection(p: Photon, m: Maths.Math)
    reads p
  {
    -1.0 < p.cosTheta < 1.0 && p.sinTheta == Maths.SineOf(m, p.cosTheta)
  }

  /** The direction of a packet: cos theta, sin theta, cos phi, sin phi. */
  function HeadingOf(p: Photon): (real, real, real, real)
    reads p
  {
    (p.cosTheta, p.sinTheta, p.cosPhi, p.sinPhi)
  }

  /** The packet `isotropic_emit_photon` builds when `random_theta_phi`
      draws uPhi second and the polar draw is uTheta: at the origin,
      phi = 2 pi uPhi, cos theta = sqrt(uTheta). */
  ghost predicate EmittedWith(p: Photon, m: Maths.Math, uPhi: real, uTheta: real)
    reads p
  {
    && p.x == 0.0 && p.y == 0.0 && p.z == 0.0
    && p.cosPhi == m.cos(Maths.Azimuth(m, uPhi)) && p.sinPhi == m.sin(Maths.Azimuth(m, uPhi))
    && p.cosTheta == m.sqrt(uTheta) && p.sinTheta == Maths.SineOf(m, p.cosTheta)
  }

  /** The direction an isotropic scattering gives from the draws u1, u2:
      cos theta = 2 u1 - 1, phi = 2 pi u2. */
  ghost predicate ScatteredWith(p: Photon, m: Maths.Math, u1: real, u2: real)
    reads p
  {
    && p.cosTheta == 2.0 * u1 - 1.0 && p.sinTheta == Maths.SineOf(m, p.cosTheta)
    && p.cosPhi == m.cos(Maths.Azimuth(m, u2)) && p.sinPhi == m.sin(Maths.Azimuth(m, u2))
  }

  /** `isotropic_emit_photon(packet)`: the packet restarts at the origin,
      not absorbed and with no interactions; phi comes from
      `random_theta_phi` (whose theta is discarded) and cos theta = sqrt(U)
      from a third draw, so the packet leaves the lower boundary upwards. */
  method IsotropicEmitPhoton(p: Photon, rng: Rng, m: Maths.Math)
    modifies p, rng
    ensures !p.absorb && p.nInters == 0
    ensures rng.pos == old(rng.pos) + 3
    ensures EmittedWith(p, m, rng.draws(old(rng.pos) + 1), rng.draws(old(rng.pos) + 2))
    ensures Maths.SqrtLaw(m) && OpenUnit(rng) ==> 0.0 < p.cosTheta < 1.0 && UnitDirection(p, m)
  {
    var mu, phi := RandomThetaPhi(rng, m);
    p.absorb := false;
    p.nInters := 0;
    p.x := 0.0;
    p.y := 0.0;
    p.z := 0.0;
    p.cosPhi := m.cos(phi);
    p.sinPhi := m.sin(phi);
    var u := rng.Uniform();
    p.cosTheta := m.sqrt(u);
    p.sinTheta := Maths.SineOf(m, p.cosTheta);
    if Maths.SqrtLaw(m) && OpenUnit(rng) {
      Maths.SqrtUnit(m, u);
    }
  }

  /** `photon_pos_step(packet, ds)`: the position moves ds along the
      direction; the direction, the absorb flag and the counter are kept. */
  method PhotonPosStep(p: Photon, ds: real)
    modifies p
    ensures p.x == old(p.x) + ds * p.sinTheta * p.cosPhi
    ensures p.y == old(p.y) + ds * p.sinTheta * p.sinPhi
    ensures p.z == old(p.z) + ds * p.cosTheta
    ensures p.cosTheta == old(p.cosTheta) && p.sinTheta == old(p.sinTheta)
    ensures p.cosPhi == old(p.cosPhi) && p.sinPhi == old(p.sinPhi)
    ensures p.absorb == old(p.absorb) && p.nInters == old(p.nInters)
  {
    p.x := p.x + ds * p.sinTheta * p.cosPhi;
    p.y := p.y + ds * p.sinTheta * p.sinPhi;
    p.z := p.z + ds * p.cosTheta;
  }

  /** `random_isotropic_direction(packet)`: a new direction, cos theta = 2U - 1
      and phi = 2 pi U'; the position, the absorb flag and the counter are
      kept. Its body is not part of the C/src sources; the draws are those of
      `random_theta_phi`. */
  method RandomIsotropicDirection(p: Photon, rng: Rng, m: Maths.Math)
    modifies p, rng
    ensures rng.pos == old(rng.pos) + 2
    ensures ScatteredWith(p, m, rng.draws(old(rng.pos)), rng.draws(old(rng.pos) + 1))
    ensures p.x == old(p.x) && p.y == old(p.y) && p.z == old(p.z)
    ensures p.absorb == old(p.absorb) && p.nInters == old(p.nInters)
    ensures Maths.SqrtLaw(m) && OpenUnit(rng) ==> UnitDirection(p, m)
  {
    var u1 := rng.Uniform();
    p.cosTheta := 2.0 * u1 - 1.0;
    p.sinTheta := Maths.SineOf(m, p.cosTheta);
    var u2 := rng.Uniform();
    var phi := Maths.Azimuth(m, u2);
    p.cosPhi := m.cos(phi);
    p.sinPhi := m.sin(phi);
  }

  /** A flight moves the packet along its direction: up when cos theta > 0,
      down when cos theta < 0, not at all when it is 0. */
  predicate Moves(s: Step)
  {
    && (0.0 < s.cosTheta ==> s.zPre < s.zPost)
    && (s.cosTheta < 0.0 ==> s.zPost < s.zPre)
    && (s.cosTheta == 0.0 ==> s.zPost == s.zPre)
  }

  /** A flight the transport loop can make: it starts inside the slab and
      moves along its direction. */
  predicate InSlabFlight(s: Step)
  {
    0.0 <= s.zPre <= 1.0 && Moves(s)
  }

  /** The value of `n_inters` after a sequence of flights: each flight adds
      one, and a flight ending below the slab re-emits the packet and starts
      the count again from zero. */
  function SinceReemission(steps: seq<Step>): nat
  {
    if steps == [] then 0
    else if steps[|steps| - 1].zPost < 0.0 then 0
    else SinceReemission(steps[..|steps| - 1]) + 1
  }

  /** The count never exceeds the number of flights, and is the number of
      flights exactly when none of them fell out of the bottom. */
  lemma {:induction false} SinceReemissionBounds(steps: seq<Step>)
    ensures SinceReemission(steps) <= |steps|
    ensures (forall k :: 0 <= k < |steps| ==> 0.0 <= steps[k].zPost) ==> SinceReemission(steps) == |steps|
  {
    if steps != [] {
      SinceReemissionBounds(steps[..|steps| - 1]);
    }
  }

  /** A flight of positive length ds from z with direction cosine c. */
  lemma FlightMoves(z: real, ds: real, c: real)
    requires 0.0 < ds
    ensures Moves(Step(z, z + ds * c, c))
  {
    SignOfProduct(ds, c);
  }

  /** Appending a flight extends the moment totals and the counter by that
      flight alone. */
  lemma AppendStep(e: Estimators, steps: seq<Step>, s: Step, nLevels: nat)
    ensures Accumulate(e, steps + [s], nLevels) == Increment(Accumulate(e, steps, nLevels), s, nLevels)
    ensures SinceReemission(steps + [s]) == if s.zPost < 0.0 then 0 else SinceReemission(steps) + 1
  {
    assert (steps + [s])[..|steps|] == steps;
  }

  /** The start of a pass: `ds = random_tau() / tau_max`, positive, and
      `photon_pos_step(packet, ds)`; the flight moves along the direction. */
  method Fly(p: Photon, rng: Rng, m: Maths.Math, tauMax: real) returns (ds: real)
    requires Maths.LogLaw(m) && OpenUnit(rng) && 0.0 < tauMax
    modifies p, rng
    ensures rng.pos == old(rng.pos) + 1
    ensures ds == -m.log(1.0 - rng.draws(old(rng.pos))) / tauMax && 0.0 < ds
    ensures p.x == old(p.x) + ds * old(p.sinTheta) * old(p.cosPhi)
    ensures p.y == old(p.y) + ds * old(p.sinTheta) * old(p.sinPhi)
    ensures p.z == old(p.z) + ds * old(p.cosTheta)
    ensures Moves(Step(old(p.z), p.z, p.cosTheta))
    ensures HeadingOf(p) == old(HeadingOf(p)) && p.absorb == old(p.absorb) && p.nInters == old(p.nInters)
  {
    var tau := RandomTau(rng, m);
    ds := tau / tauMax;
    DivPositive(tau, tauMax);
    PhotonPosStep(p, ds);
    FlightMoves(old(p.z), ds, p.cosTheta);
  }

  /** The position and direction a pass leaves, given the stream `draws`
      from position `start` on: below the slab the packet is re-emitted with
      the second and third draws after the optical depth; inside it, unless
      absorbed, it is scattered with the two draws after xi; otherwise it
      keeps its direction. Unless re-emitted it has moved ds along its old
      direction. */
  twostate predicate PassEffect(p: Photon, m: Maths.Math, draws: nat -> real, start: nat, ds: real, s: Step)
    reads p
  {
    && (s.zPost < 0.0 ==> EmittedWith(p, m, draws(start + 2), draws(start + 3)))
    && (0.0 <= s.zPost <= 1.0 && !p.absorb ==> ScatteredWith(p, m, draws(start + 2), draws(start + 3)))
    && (0.0 <= s.zPost && (p.absorb || 1.0 < s.zPost) ==> HeadingOf(p) == old(HeadingOf(p)))
    && (0.0 <= s.zPost ==>
          && p.x == old(p.x) + ds * old(p.sinTheta) * old(p.cosPhi)
          && p.y == old(p.y) + ds * old(p.sinTheta) * old(p.sinPhi))
  }

  /** One pass of the loop of `transport_photon_const_rho`, from inside the
      slab: draw an optical depth, fly ds = tau / tau_max, count the
      interaction, record the flight (height before, height after, direction
      flown) in the moments, then either re-emit the packet (below the
      slab), or draw xi and scatter when xi <= albedo and absorb otherwise
      (inside), or leave it as it is (above). */
  method TransportFlight(p: Photon, moments: Moments, rng: Rng, m: Maths.Math, tauMax: real, albedo: real)
    returns (ds: real, ghost s: Step)
    requires moments.Valid() && Maths.SqrtLaw(m) && Maths.LogLaw(m) && OpenUnit(rng) && 0.0 < tauMax
    requires 0.0 <= p.z <= 1.0 && !p.absorb && UnitDirection(p, m)
    modifies p, rng, moments.Repr()
    ensures moments.Valid() && moments.State() == Increment(old(moments.State()), s, moments.nLevels)
    ensures s.zPre == old(p.z) && s.cosTheta == old(p.cosTheta) && InSlabFlight(s)
    ensures UnitDirection(p, m) && 0.0 <= p.z
    ensures s.zPost < 0.0 ==> p.z == 0.0 && !p.absorb && p.nInters == 0
    ensures 0.0 <= s.zPost ==> p.z == s.zPost && p.nInters == old(p.nInters) + 1
    ensures 0.0 <= s.zPost <= 1.0 ==> (p.absorb <==> albedo < rng.draws(old(rng.pos) + 1))
    ensures 1.0 < s.zPost ==> !p.absorb && p.cosTheta == s.cosTheta
    ensures ds == -m.log(1.0 - rng.draws(old(rng.pos))) / tauMax && s.zPost == old(p.z) + ds * old(p.cosTheta)
    ensures rng.pos == old(rng.pos) + 1 + (if s.zPost < 0.0 then 3 else if s.zPost <= 1.0 then (if p.absorb then 1 else 3) else 0)
    ensures PassEffect(p, m, rng.draws, old(rng.pos), ds, s)
  {
    var zOrig := p.z;
    ghost var h0 := HeadingOf(p);
    ds := Fly(p, rng, m, tauMax);
    p.nInters := p.nInters + 1;
    s := Step(zOrig, p.z, p.cosTheta);
    StepInRange(s, moments.nLevels);
    ghost var x1, y1 := p.x, p.y;
    moments.IncrementRadiationMomentEstimators(zOrig, p.z, p.cosTheta);
    assert p.x == x1 && p.y == y1 && p.z == s.zPost && HeadingOf(p) == h0;
    Interact(p, rng, m, albedo);
  }

  /** What follows a flight in the loop of `transport_photon_const_rho`: a
      packet below the slab is re-emitted; inside the slab xi is drawn, and
      the packet scatters when xi <= albedo and is absorbed otherwise; above
      the slab it is left as it is, to escape. */
  method Interact(p: Photon, rng: Rng, m: Maths.Math, albedo: real)
    requires Maths.SqrtLaw(m) && OpenUnit(rng) && !p.absorb && UnitDirection(p, m)
    modifies p, rng
    ensures UnitDirection(p, m)
    ensures old(p.z) < 0.0 ==> p.z == 0.0 && !p.absorb && p.nInters == 0
    ensures 0.0 <= old(p.z) ==> p.z == old(p.z) && p.nInters == old(p.nInters)
    ensures 0.0 <= old(p.z) <= 1.0 ==> (p.absorb <==> albedo < rng.draws(old(rng.pos)))
    ensures 1.0 < old(p.z) ==> !p.absorb && p.cosTheta == old(p.cosTheta)
    ensures rng.pos == old(rng.pos) + (if old(p.z) < 0.0 then 3 else if old(p.z) <= 1.0 then (if p.absorb then 1 else 3) else 0)
    ensures old(p.z) < 0.0 ==> EmittedWith(p, m, rng.draws(old(rng.pos) + 1), rng.draws(old(rng.pos) + 2))
    ensures 0.0 <= old(p.z) <= 1.0 && !p.absorb ==>
              ScatteredWith(p, m, rng.draws(old(rng.pos) + 1), rng.draws(old(rng.pos) + 2))
    ensures 0.0 <= old(p.z) ==> p.x == old(p.x) && p.y == old(p.y)
    ensures p.absorb || 1.0 < old(p.z) ==> HeadingOf(p) == old(HeadingOf(p))
  {
    if p.z < 0.0 {
      IsotropicEmitPhoton(p, rng, m);
    } else if p.z <= 1.0 {
      var xi := rng.Uniform();
      if xi <= albedo {
        RandomIsotropicDirection(p, rng, m);
      } else {
        p.absorb := true;
      }
    }
  }

  /** The `while (packet->z >= 0 && packet->z <= 1 && !packet->absorb)`
      loop of `transport_photon_const_rho`, with at most `fuel` flights, from
      a packet inside the slab whose counter is 0. */
  method TransportLoop(p: Photon, moments: Moments, rng: Rng, m: Maths.Math, tauMax: real, albedo: real, fuel: nat)
    returns (completed: bool, ghost steps: seq<Step>)
    requires moments.Valid() && Maths.SqrtLaw(m) && Maths.LogLaw(m) && OpenUnit(rng) && 0.0 < tauMax
    requires UnitDirection(p, m) && 0.0 <= p.z <= 1.0 && !p.absorb && p.nInters == 0
    modifies p, rng, moments.Repr()
    ensures moments.Valid() && moments.State() == Accumulate(old(moments.State()), steps, moments.nLevels)
    ensures forall k :: 0 <= k < |steps| ==> InSlabFlight(steps[k])
    ensures |steps| <= fuel && (!completed ==> |steps| == fuel)
    ensures p.nInters == SinceReemission(steps)
    ensures UnitDirection(p, m) && 0.0 <= p.z
    ensures completed ==> (p.absorb && p.z <= 1.0) || (!p.absorb && 1.0 < p.z)
    ensures !completed ==> !p.absorb && p.z <= 1.0
    ensures p.absorb ==> albedo < 1.0 && p.z <= 1.0 && steps != [] && steps[|steps| - 1].zPost == p.z
    ensures 1.0 < p.z && steps != [] ==> 0.0 < p.cosTheta && steps[|steps| - 1] == Step(steps[|steps| - 1].zPre, p.z, p.cosTheta)
    ensures steps != [] ==> (1.0 < steps[|steps| - 1].zPost <==> 1.0 < p.z)
    ensures steps == [] ==> p.z == old(p.z)
  {
    steps := [];
    completed := true;
    var left := fuel;
    while 0.0 <= p.z <= 1.0 && !p.absorb
      invariant moments.Valid() && moments.State() == Accumulate(old(moments.State()), steps, moments.nLevels)
      invariant forall k :: 0 <= k < |steps| ==> InSlabFlight(steps[k])
      invariant |steps| + left == fuel && (!completed ==> left == 0)
      invariant p.nInters == SinceReemission(steps)
      invariant UnitDirection(p, m) && 0.0 <= p.z
      invariant p.absorb ==> albedo < 1.0 && p.z <= 1.0 && steps != [] && steps[|steps| - 1].zPost == p.z
      invariant 1.0 < p.z ==> 0.0 < p.cosTheta && steps != [] && steps[|steps| - 1] == Step(steps[|steps| - 1].zPre, p.z, p.cosTheta)
      invariant steps != [] ==> (1.0 < steps[|steps| - 1].zPost <==> 1.0 < p.z)
      invariant steps == [] ==> p.z == old(p.z)
      modifies p, rng, moments.Repr()
      decreases left
    {
      if left == 0 {
        completed := false;
        break;
      }
      left := left - 1;
      var ds;
      ghost var s;
      ds, s := TransportFlight(p, moments, rng, m, tauMax, albedo);
      AppendStep(old(moments.State()), steps, s, moments.nLevels);
      steps := steps + [s];
    }
  }

  /** `transport_photon_const_rho(packet, hist, moments)`, with at most `fuel`
      flights (`completed` is false when the fuel ran out before the packet
      escaped or was absorbed). `steps` records every flight: the height
      before, the height after and the direction flown, which is exactly what
      the moment update is called with.
      On completion the packet is either absorbed inside the slab or has
      escaped through the top, with an upward direction, and has then been
      binned once with that direction; the counter holds the flights since
      the last re-emission; with albedo >= 1 no packet is absorbed. */
  method TransportPhotonConstRho(p: Photon, hist: MuHist, moments: Moments, rng: Rng, m: Maths.Math,
                                 tauMax: real, albedo: real, fuel: nat)
    returns (completed: bool, ghost steps: seq<Step>)
    requires hist.Valid() && moments.Valid() && hist.theta !in moments.Repr()
    requires Maths.SqrtLaw(m) && Maths.LogLaw(m) && OpenUnit(rng) && 0.0 < tauMax
    modifies p, rng, hist, hist.bins, moments.Repr()
    ensures hist.Valid() && moments.Valid()
    ensures moments.State() == Accumulate(old(moments.State()), steps, moments.nLevels)
    ensures forall k :: 0 <= k < |steps| ==> InSlabFlight(steps[k])
    ensures |steps| <= fuel && (!completed ==> |steps| == fuel)
    ensures p.nInters == SinceReemission(steps)
    ensures -1.0 < p.cosTheta < 1.0 && 0.0 <= p.z
    ensures completed ==> (p.absorb && p.z <= 1.0) || (!p.absorb && 1.0 < p.z)
    ensures p.absorb ==> albedo < 1.0 && steps != [] && steps[|steps| - 1].zPost == p.z
    ensures 1.0 < p.z ==> 0.0 < p.cosTheta && steps != [] && steps[|steps| - 1] == Step(steps[|steps| - 1].zPre, p.z, p.cosTheta)
    ensures completed && !p.absorb ==> hist.escapes == old(hist.escapes) + [p.cosTheta]
    ensures !(completed && !p.absorb) ==> hist.escapes == old(hist.escapes) && hist.bins[..] == old(hist.bins[..])
    ensures hist.escapes == old(hist.escapes) + EscapeOf(steps)
  {
    IsotropicEmitPhoton(p, rng, m);
    assert hist !in moments.Repr() && hist.bins !in moments.Repr();
    completed, steps := TransportLoop(p, moments, rng, m, tauMax, albedo, fuel);
    assert hist.Valid();
    if completed && !p.absorb {
      assert 1.0 < p.z && steps != [];
    } else {
      assert p.z <= 1.0;
    }
    ghost var state, z, cosTheta, absorb, nInters := moments.State(), p.z, p.cosTheta, p.absorb, p.nInters;
    BinEscape(hist, steps, completed && !p.absorb, p.cosTheta);
    assert moments.State() == state && p.z == z && p.cosTheta == cosTheta && p.absorb == absorb && p.nInters == nInters;
  }

  /** The end of `transport_photon_const_rho`: a packet that left through the
      top is binned once with its direction, any other is not binned. */
  method BinEscape(hist: MuHist, ghost steps: seq<Step>, escaped: bool, cosTheta: real)
    requires hist.Valid() && (escaped ==> -1.0 < cosTheta < 1.0)
    requires EscapeOf(steps) == (if escaped then [cosTheta] else [])
    modifies hist, hist.bins
    ensures hist.Valid() && hist.escapes == old(hist.escapes) + EscapeOf(steps)
    ensures !escaped ==> hist.bins[..] == old(hist.bins[..])
  {
    if escaped {
      hist.BinPhoton(cosTheta);
    }
  }

  /** The cosine a run of flights adds to the histogram: that of its last
      flight when that flight left through the top, none otherwise. */
  function EscapeOf(run: seq<Step>): seq<real>
  {
    if run != [] && 1.0 < run[|run| - 1].zPost then [run[|run| - 1].cosTheta] else []
  }

  /** The flights of several packets, one packet after another. */
  function Concat(runs: seq<seq<Step>>): seq<Step>
  {
    if runs == [] then [] else Concat(runs[..|runs| - 1]) + runs[|runs| - 1]
  }

  /** The escape cosines of several packets, in the order they were sent. */
  function Escapes(runs: seq<seq<Step>>): seq<real>
  {
    if runs == [] then [] else Escapes(runs[..|runs| - 1]) + EscapeOf(runs[|runs| - 1])
  }

  /** The flights of one packet of a photon loop: at most `fuel` of them,
      all from inside the slab, all `fuel` unless it completed (`done`), an
      escape cosine (if any) that points up, and an escape whenever it
      completed with albedo >= 1. */
  predicate EscapeRun(run: seq<Step>, fuel: nat, done: bool, albedo: real)
  {
    && |run| <= fuel && (!done ==> |run| == fuel)
    && (forall j :: 0 <= j < |run| ==> InSlabFlight(run[j]))
    && (EscapeOf(run) != [] ==> 0.0 < EscapeOf(run)[0] < 1.0)
    && (done && 1.0 <= albedo ==> EscapeOf(run) != [])
  }

  /** What one packet of `start_mcrt` did: `EscapeRun`, with a counter
      `inters` that is the number of flights since its last re-emission. */
  predicate PacketRun(run: seq<Step>, fuel: nat, done: bool, inters: int, albedo: real)
  {
    inters == SinceReemission(run) && EscapeRun(run, fuel, done, albedo)
  }

  /** `PacketRun` for every packet of a photon loop, packet by packet. */
  predicate PacketRuns(runs: seq<seq<Step>>, dones: seq<bool>, inters: seq<int>, fuel: nat, albedo: real)
  {
    && |dones| == |runs| && |inters| == |runs|
    && (runs != [] ==>
          var n := |runs| - 1;
          PacketRuns(runs[..n], dones[..n], inters[..n], fuel, albedo)
          && PacketRun(runs[n], fuel, dones[n], inters[n], albedo))
  }

  /** `PacketRuns` holds of a loop's packets exactly when `PacketRun` holds
      of each of them. */
  lemma {:induction false} PacketRunsIndex(runs: seq<seq<Step>>, dones: seq<bool>, inters: seq<int>,
                                           fuel: nat, albedo: real)
    requires |dones| == |runs| && |inters| == |runs|
    ensures PacketRuns(runs, dones, inters, fuel, albedo) <==>
              forall k :: 0 <= k < |runs| ==> PacketRun(runs[k], fuel, dones[k], inters[k], albedo)
  {
    if runs != [] {
      var n := |runs| - 1;
      PacketRunsIndex(runs[..n], dones[..n], inters[..n], fuel, albedo);
    }
  }

  /** The bookkeeping of one more packet of the photon loop: its run joins
      the others and its flights their moments, `completed` stays true only
      if it completed, its counter joins the sum and its escape (if any)
      the histogram. */
  lemma NextPacket(runs: seq<seq<Step>>, dones: seq<bool>, inters: seq<int>,
                   run: seq<Step>, done: bool, n: int, fuel: nat, albedo: real)
    requires PacketRuns(runs, dones, inters, fuel, albedo) && PacketRun(run, fuel, done, n, albedo)
    ensures PacketRuns(runs + [run], dones + [done], inters + [n], fuel, albedo)
    ensures (false !in dones + [done]) <==> (false !in dones) && done
    ensures Concat(runs + [run]) == Concat(runs) + run
    ensures Escapes(runs + [run]) == Escapes(runs) + EscapeOf(run)
    ensures Sum(inters + [n]) == Sum(inters) + n
  {
    assert (runs + [run])[..|runs|] == runs;
    assert (dones + [done])[..|runs|] == dones;
    assert (inters + [n])[..|runs|] == inters;
  }

  /** What the packets of a photon loop add up to: each is a `PacketRun`;
      they completed when none ran out of fuel; their escapes, one per
      packet at most and one per packet when all completed with
      albedo >= 1, all point up; all their flights start inside the slab. */
  lemma RunsBounds(runs: seq<seq<Step>>, dones: seq<bool>, inters: seq<int>, fuel: nat, albedo: real)
    requires PacketRuns(runs, dones, inters, fuel, albedo)
    ensures |dones| == |runs| && |inters| == |runs|
    ensures forall k :: 0 <= k < |runs| ==> PacketRun(runs[k], fuel, dones[k], inters[k], albedo)
    ensures (false !in dones) <==> forall k :: 0 <= k < |dones| ==> dones[k]
    ensures |Escapes(runs)| <= |runs| && ((false !in dones) && 1.0 <= albedo ==> |Escapes(runs)| == |runs|)
    ensures forall k :: 0 <= k < |Escapes(runs)| ==> 0.0 < Escapes(runs)[k] < 1.0
    ensures forall j :: 0 <= j < |Concat(runs)| ==> InSlabFlight(Concat(runs)[j])
  {
    PacketRunsIndex(runs, dones, inters, fuel, albedo);
    EscapesBounds(runs, dones, fuel, albedo);
  }

  /** The escapes of several packets: at most one per packet, each pointing
      up, and one per packet when all completed with albedo >= 1; and all
      their flights start inside the slab. */
  lemma {:induction false} EscapesBounds(runs: seq<seq<Step>>, dones: seq<bool>, fuel: nat, albedo: real)
    requires |dones| == |runs|
    requires forall k :: 0 <= k < |runs| ==> EscapeRun(runs[k], fuel, dones[k], albedo)
    ensures |Escapes(runs)| <= |runs|
    ensures forall k :: 0 <= k < |Escapes(runs)| ==> 0.0 < Escapes(runs)[k] < 1.0
    ensures (forall k :: 0 <= k < |dones| ==> dones[k]) && 1.0 <= albedo ==> |Escapes(runs)| == |runs|
    ensures forall j :: 0 <= j < |Concat(runs)| ==> InSlabFlight(Concat(runs)[j])
  {
    if runs != [] {
      var n := |runs| - 1;
      EscapesBounds(runs[..n], dones[..n], fuel, albedo);
      assert EscapeRun(runs[n], fuel, dones[n], albedo);
      var c := Concat(runs[..n]);
      assert forall j :: |c| <= j < |Concat(runs)| ==> Concat(runs)[j] == runs[n][j - |c|];
    }
  }

  /** `start_mcrt()`, run sequentially: a zeroed histogram and zeroed moments,
      then n_photons packets transported one after another (`RunPackets`);
      then the intensity of every bin, and the average interaction count
      truncated to an integer. `completed` is false when some packet ran out
      of fuel. Packet k's flights are `runs[k]` and its counter, summed into
      `total_inters`, is the number of them since its last re-emission; the
      histogram holds exactly the escape cosines of the runs, each upward,
      never more than the packets sent and all of them when albedo >= 1; and
      the moments are the crossing totals of all flights. */
  method StartMcrt(nPhotons: nat, muBins: nat, nLevels: nat, tauMax: real, albedo: real,
                   rng: Rng, m: Maths.Math, fuel: nat)
    returns (completed: bool, totalInters: int, averageInters: int,
             hist: MuHist, moments: Moments, intens: array<real>,
             ghost inters: seq<int>, ghost steps: seq<Step>, ghost runs: seq<seq<Step>>, ghost dones: seq<bool>)
    requires 1 <= nPhotons && 1 <= muBins && 0.0 < tauMax
    requires Maths.SqrtLaw(m) && Maths.LogLaw(m) && Maths.AcosLaw(m) && OpenUnit(rng)
    modifies rng
    ensures fresh(hist) && fresh(hist.bins) && fresh(moments) && fresh(intens)
    ensures hist.Valid() && hist.muBins == muBins && moments.Valid() && moments.nLevels == nLevels
    ensures |inters| == nPhotons && |runs| == nPhotons && |dones| == nPhotons
    ensures forall k :: 0 <= k < nPhotons ==> PacketRun(runs[k], fuel, dones[k], inters[k], albedo)
    ensures completed <==> forall k :: 0 <= k < nPhotons ==> dones[k]
    ensures steps == Concat(runs) && hist.escapes == Escapes(runs)
    ensures totalInters == Sum(inters)
    ensures averageInters == Trunc(totalInters as real / nPhotons as real)
    ensures |hist.escapes| <= nPhotons && (completed && 1.0 <= albedo ==> |hist.escapes| == nPhotons)
    ensures forall k :: 0 <= k < |hist.escapes| ==> 0.0 < hist.escapes[k] < 1.0
    ensures Sum(hist.bins[..]) == |hist.escapes|
    ensures moments.State() == Accumulate(Zero(nLevels), steps, nLevels)
    ensures forall k :: 0 <= k < |steps| ==> InSlabFlight(steps[k])
    ensures intens.Length == muBins
    ensures forall i :: 0 <= i < muBins ==>
              0.0 < BinCentre(i, muBins) &&
              intens[i] == Intensity(hist.bins[i] as real, muBins, nPhotons, BinCentre(i, muBins))
  {
    hist := new MuHist.InitPhotonHist(muBins, m);
    moments := new Moments(nLevels);
    completed, totalInters, inters, steps, runs, dones := RunPackets(nPhotons, hist, moments, rng, m, tauMax, albedo, fuel);
    HistogramTotal(hist.escapes, muBins);
    ghost var state, bins := moments.State(), hist.bins[..];
    intens := new real[muBins];
    hist.CalculateIntensity(intens, nPhotons);
    assert moments.State() == state && hist.bins[..] == bins;
    averageInters := Trunc(totalInters as real / nPhotons as real);
  }

  /** The photon loop of `start_mcrt`: n_photons packets transported one
      after another in the same packet variable, into a histogram and
      moments that start empty and zero. */
  method RunPackets(nPhotons: nat, hist: MuHist, moments: Moments, rng: Rng, m: Maths.Math,
                    tauMax: real, albedo: real, fuel: nat)
    returns (completed: bool, totalInters: int,
             ghost inters: seq<int>, ghost steps: seq<Step>, ghost runs: seq<seq<Step>>, ghost dones: seq<bool>)
    requires hist.Valid() && moments.Valid() && hist.theta !in moments.Repr()
    requires hist.escapes == [] && moments.State() == Zero(moments.nLevels)
    requires Maths.SqrtLaw(m) && Maths.LogLaw(m) && OpenUnit(rng) && 0.0 < tauMax
    modifies rng, hist, hist.bins, moments.Repr()
    ensures hist.Valid() && moments.Valid()
    ensures |inters| == nPhotons && |runs| == nPhotons && |dones| == nPhotons
    ensures forall k :: 0 <= k < nPhotons ==> PacketRun(runs[k], fuel, dones[k], inters[k], albedo)
    ensures completed <==> forall k :: 0 <= k < nPhotons ==> dones[k]
    ensures steps == Concat(runs) && hist.escapes == Escapes(runs)
    ensures totalInters == Sum(inters)
    ensures |hist.escapes| <= nPhotons && (completed && 1.0 <= albedo ==> |hist.escapes| == nPhotons)
    ensures forall k :: 0 <= k < |hist.escapes| ==> 0.0 < hist.escapes[k] < 1.0
    ensures moments.State() == Accumulate(Zero(moments.nLevels), steps, moments.nLevels)
    ensures forall k :: 0 <= k < |steps| ==> InSlabFlight(steps[k])
  {
    var packet := new Photon();
    totalInters := 0;
    completed := true;
    inters, runs, dones := [], [], [];
    for photonCount := 1 to nPhotons + 1
      invariant hist.Valid() && moments.Valid()
      invariant |runs| == photonCount - 1
      invariant PacketRuns(runs, dones, inters, fuel, albedo)
      invariant completed <==> false !in dones
      invariant hist.escapes == Escapes(runs)
      invariant totalInters == Sum(inters)
      invariant moments.State() == Accumulate(Zero(moments.nLevels), Concat(runs), moments.nLevels)
    {
      var done, flights := RunPacket(packet, hist, moments, rng, m, tauMax, albedo, fuel);
      AccumulateAppend(Zero(moments.nLevels), Concat(runs), flights, moments.nLevels);
      NextPacket(runs, dones, inters, flights, done, packet.nInters, fuel, albedo);
      completed := completed && done;
      totalInters := totalInters + packet.nInters;
      inters := inters + [packet.nInters];
      runs, dones := runs + [flights], dones + [done];
    }
    steps := Concat(runs);
    RunsBounds(runs, dones, inters, fuel, albedo);
  }

  /** One packet of the photon loop of `start_mcrt`: its flights `run`
      are added to the moments, its counter is the number of them since its
      last re-emission, and the histogram gains the run's escape cosine, if
      any, which points up; with albedo >= 1 a completed packet escapes. */
  method RunPacket(packet: Photon, hist: MuHist, moments: Moments, rng: Rng, m: Maths.Math,
                   tauMax: real, albedo: real, fuel: nat)
    returns (done: bool, ghost run: seq<Step>)
    requires hist.Valid() && moments.Valid() && hist.theta !in moments.Repr()
    requires Maths.SqrtLaw(m) && Maths.LogLaw(m) && OpenUnit(rng) && 0.0 < tauMax
    modifies packet, rng, hist, hist.bins, moments.Repr()
    ensures hist.Valid() && moments.Valid()
    ensures moments.State() == Accumulate(old(moments.State()), run, moments.nLevels)
    ensures PacketRun(run, fuel, done, packet.nInters, albedo)
    ensures hist.escapes == old(hist.escapes) + EscapeOf(run)
  {
    done, run := TransportPhotonConstRho(packet, hist, moments, rng, m, tauMax, albedo, fuel);
  }

  /** The moments after two runs of flights are those after their
      concatenation. */
  lemma {:induction false} AccumulateAppend(e: Estimators, a: seq<Step>, b: seq<Step>, nLevels: nat)
    ensures Accumulate(Accumulate(e, a, nLevels), b, nLevels) == Accumulate(e, a + b, nLevels)
  {
    if b == [] {
      assert a + b == a;
    } else {
      AccumulateAppend(e, a, b[..|b| - 1], nLevels);
      assert (a + b)[..|a + b| - 1] == a + b[..|b| - 1];
    }
  }
}
