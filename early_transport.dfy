/** Photon transport of the early C revisions, which have no absorption:
    the loop of `transport_photon` in C/transport.c and
    plane_parallel_c/transport.c, and of `scatter_photon` in
    plane_parallel_c/packet.c. Each pass draws an optical depth, moves the
    packet, re-emits it if it fell below the slab, and then, in the same
    pass, draws once more and scatters it when the draw is below the albedo
    and the packet is not above the slab. The loop ends only when the packet
    leaves through the top. */
module EarlyTransport {
  import opened Numeric
  import Maths
  import opened Random
  import opened EarlyPacket

  /** Which `emit_photon` re-emits a packet that fell out of the bottom. */
  datatype Emitter =
      /** `emit_photon(packetPtr)` of C/photon_packet.c, in place. */
    | InPlace
      /** `*packetPtr = *emit_photon()` with the heap packet of
          plane_parallel_c/photon_packet.c. */
    | HeapCopy
      /** `*packetPtr = *emit_photon()` with the stack packet of
          plane_parallel_c/packet.c, whose counters are never assigned. */
    | StackCopy

  /** The re-emission of a packet that fell out of the bottom: the packet
      gets the position and direction of a new emission; every emitter but
      the stack one also resets the counters. */
  method Reemit(p: Packet, rng: Rng, m: Maths.Math, e: Emitter)
    modifies p, rng
    ensures rng.pos == old(rng.pos) + 2
    ensures EmittedWith(p, m, rng.draws(old(rng.pos)), rng.draws(old(rng.pos) + 1))
    ensures e != StackCopy ==> CountersReset(p)
    ensures Maths.SqrtLaw(m) && HalfOpenUnit(rng) ==> Direction(p, m) && 0.0 < p.cosTheta
    ensures Maths.SqrtLaw(m) && OpenUnit(rng) ==> p.cosTheta < 1.0
  {
    match e
    case InPlace =>
      EmitPhoton(p, rng, m);
    case HeapCopy =>
      var q := NewPhoton(rng, m);
      p.CopyFrom(q);
    case StackCopy =>
      var q := NewStackPhoton(rng, m);
      p.CopyFrom(q);
  }

  /** One pass of the loop, as recorded: the height before and after the
      move (before any re-emission), the direction flown, the optical depth
      drawn and whether the packet was scattered at the end of the pass. */
  datatype Flight = Flight(zPre: real, zPost: real, cosTheta: real, tau: real, scattered: bool)

  /** The passes the loop can make: each starts inside the slab with a
      non-negative optical depth. */
  predicate FromSlab(flights: seq<Flight>)
  {
    forall k :: 0 <= k < |flights| ==> 0.0 <= flights[k].zPre <= 1.0 && 0.0 <= flights[k].tau
  }

  /** No pass ended below the slab, so the packet was never re-emitted. */
  predicate NeverReemitted(flights: seq<Flight>)
  {
    forall k :: 0 <= k < |flights| ==> 0.0 <= flights[k].zPost
  }

  /** Consecutive passes join up: each starts where the one before ended,
      so nothing moved the packet back to the origin in between. */
  predicate Chained(flights: seq<Flight>)
  {
    forall k :: 1 <= k < |flights| ==> flights[k].zPre == flights[k - 1].zPost
  }

  /** The record ends with an escape through the top with direction cosine
      `c`: the last pass took the packet above the slab unscattered. */
  predicate Escaped(flights: seq<Flight>, c: real)
  {
    && flights != []
    && var last := flights[|flights| - 1];
       !last.scattered && 1.0 < last.zPost && last.cosTheta == c
  }

  /** What one packet of a simulation loop did: emitted at the origin, it
      made one to `fuel` passes from inside the slab, and when its transport
      completed (`done`) it escaped through the top with the recorded cosine
      `mu`; otherwise it used up all `fuel` passes. */
  predicate PacketRun(run: seq<Flight>, fuel: nat, done: bool, mu: real)
  {
    && 1 <= |run| <= fuel
    && FromSlab(run) && run[0].zPre == 0.0
    && (done ==> Escaped(run, mu))
    && (!done ==> |run| == fuel)
  }

  /** The cosine a photon's passes add to a histogram of escapes: that of
      its last pass when that pass took it above the slab unscattered, none
      otherwise. */
  function EscapeCosine(run: seq<Flight>): seq<real>
  {
    if run != [] && 1.0 < run[|run| - 1].zPost && !run[|run| - 1].scattered then [run[|run| - 1].cosTheta] else []
  }

  /** The escape cosines of several photons, in the order they were sent. */
  function EscapeCosines(runs: seq<seq<Flight>>): seq<real>
  {
    if runs == [] then [] else EscapeCosines(runs[..|runs| - 1]) + EscapeCosine(runs[|runs| - 1])
  }

  /** One more photon adds its escape cosine, if any, at the end. */
  lemma EscapeCosinesSnoc(runs: seq<seq<Flight>>, run: seq<Flight>)
    ensures EscapeCosines(runs + [run]) == EscapeCosines(runs) + EscapeCosine(run)
  {
    assert (runs + [run])[..|runs|] == runs;
  }

  /** Escape cosines that all lie in (0,1) one photon at a time do so
      together, at most one per photon, and one per photon when every
      photon escaped. */
  lemma {:induction false} EscapeCosinesBounds(runs: seq<seq<Flight>>)
    requires forall k :: 0 <= k < |runs| ==> EscapeCosine(runs[k]) != [] ==> 0.0 < EscapeCosine(runs[k])[0] < 1.0
    ensures |EscapeCosines(runs)| <= |runs|
    ensures forall i :: 0 <= i < |EscapeCosines(runs)| ==> 0.0 < EscapeCosines(runs)[i] < 1.0
    ensures (forall k :: 0 <= k < |runs| ==> EscapeCosine(runs[k]) != []) ==> |EscapeCosines(runs)| == |runs|
  {
    if runs != [] {
      var n := |runs| - 1;
      EscapeCosinesBounds(runs[..n]);
      assert forall k :: 0 <= k < n ==> runs[..n][k] == runs[k];
    }
  }

  /** The optical depth travelled over all passes: `tau_tot`. */
  function TauTotal(flights: seq<Flight>): real
  {
    if flights == [] then 0.0 else TauTotal(flights[..|flights| - 1]) + flights[|flights| - 1].tau
  }

  /** Every optical depth drawn is non-negative, so is their total. */
  lemma {:induction false} TauTotalNonNegative(flights: seq<Flight>)
    requires FromSlab(flights)
    ensures 0.0 <= TauTotal(flights)
  {
    if flights != [] {
      TauTotalNonNegative(flights[..|flights| - 1]);
    }
  }

  /** `tau = -1.0 * log(random_number())`: non-negative for every draw in
      (0,1]. */
  method SampleTau(rng: Rng, m: Maths.Math) returns (tau: real)
    modifies rng
    ensures rng.pos == old(rng.pos) + 1
    ensures tau == -1.0 * m.log(rng.draws(old(rng.pos)))
    ensures Maths.LogLaw(m) && HalfOpenUnit(rng) ==> 0.0 <= tau
  {
    var u := rng.Uniform();
    tau := -1.0 * m.log(u);
  }

  /** The direction after a pass: kept unless the packet was re-emitted or
      scattered. */
  predicate KeptDirection(f: Flight, c: real)
  {
    0.0 <= f.zPost && !f.scattered ==> c == f.cosTheta
  }

  /** One pass of the loop from inside the slab, with distance
      L = tau / tau_max. A packet below the slab afterwards is re-emitted at
      the origin, and its scattering draw is the one after the two emission
      draws; a packet above the slab is never scattered and keeps the
      direction it escaped with, which points up. */
  method Iterate(p: Packet, rng: Rng, m: Maths.Math, albedo: real, tauMax: real, e: Emitter)
    returns (tau: real, L: real, ghost f: Flight)
    requires Maths.SqrtLaw(m) && Maths.LogLaw(m) && HalfOpenUnit(rng) && 0.0 < tauMax
    requires 0.0 <= p.z <= 1.0 && Direction(p, m)
    modifies p, rng
    ensures f.zPre == old(p.z) && f.cosTheta == old(p.cosTheta) && f.tau == tau
    ensures L == tau / tauMax && 0.0 <= tau && 0.0 <= L
    ensures f.zPost == old(p.z) + L * old(p.cosTheta)
    ensures rng.pos == old(rng.pos) + 2 + (if f.zPost < 0.0 then 2 else 0) + (if f.scattered then 2 else 0)
    ensures Direction(p, m) && 0.0 <= p.z
    ensures OpenUnit(rng) && old(p.cosTheta) < 1.0 ==> p.cosTheta < 1.0
    ensures tau == -1.0 * m.log(rng.draws(old(rng.pos)))
    ensures f.zPost < 0.0 ==> p.z == 0.0 && (f.scattered <==> rng.draws(old(rng.pos) + 3) < albedo)
    ensures 0.0 <= f.zPost ==> p.z == f.zPost && (f.scattered <==> rng.draws(old(rng.pos) + 1) < albedo && f.zPost <= 1.0)
    ensures KeptDirection(f, p.cosTheta)
    ensures 1.0 < p.z ==> !f.scattered && p.z == f.zPost && p.cosTheta == f.cosTheta && 0.0 < p.cosTheta
    ensures 0.0 <= f.zPost ==>
              && p.x == old(p.x) + L * old(p.sinTheta) * old(p.cosPhi)
              && p.y == old(p.y) + L * old(p.sinTheta) * old(p.sinPhi)
              && p.interactions == old(p.interactions) && p.avgTau == old(p.avgTau) && p.avgL == old(p.avgL)
    ensures 0.0 <= f.zPost && !f.scattered ==> HeadingOf(p) == old(HeadingOf(p))
    ensures f.zPost < 0.0 ==> p.x == 0.0 && p.y == 0.0 && (e != StackCopy ==> CountersReset(p))
    ensures f.zPost < 0.0 && !f.scattered ==>
              EmittedWith(p, m, rng.draws(old(rng.pos) + 1), rng.draws(old(rng.pos) + 2))
    ensures f.scattered ==>
              var k := old(rng.pos) + (if f.zPost < 0.0 then 4 else 2);
              ScatteredWith(p, m, rng.draws(k), rng.draws(k + 1))
  {
    var zOrig, cOrig := p.z, p.cosTheta;
    tau, L := Travel(p, rng, m, tauMax);
    ghost var z1 := p.z;
    var scattered := AfterMove(p, rng, m, albedo, e);
    f := Flight(zOrig, z1, cOrig, tau, scattered);
    if 1.0 < p.z {
      PositiveFactor(L, cOrig);
    }
  }

  /** The start of a pass: draw an optical depth, turn it into the distance
      L = tau / tau_max and move the packet that far along its direction. */
  method Travel(p: Packet, rng: Rng, m: Maths.Math, tauMax: real) returns (tau: real, L: real)
    requires Maths.LogLaw(m) && HalfOpenUnit(rng) && 0.0 < tauMax
    modifies p, rng
    ensures rng.pos == old(rng.pos) + 1
    ensures tau == -1.0 * m.log(rng.draws(old(rng.pos)))
    ensures L == tau / tauMax && 0.0 <= tau && 0.0 <= L
    ensures p.x == old(p.x) + L * old(p.sinTheta) * old(p.cosPhi)
    ensures p.y == old(p.y) + L * old(p.sinTheta) * old(p.sinPhi)
    ensures p.z == old(p.z) + L * old(p.cosTheta)
    ensures HeadingOf(p) == old(HeadingOf(p))
    ensures p.interactions == old(p.interactions) && p.avgTau == old(p.avgTau) && p.avgL == old(p.avgL)
  {
    tau := SampleTau(rng, m);
    L := tau / tauMax;
    DivNonNegative(tau, tauMax);
    Move(p, L);
  }

  /** The rest of a pass once the packet has moved: re-emission when it is
      below the slab, then the scattering draw, and scattering when the draw
      is below the albedo and the packet is not above the slab. */
  method AfterMove(p: Packet, rng: Rng, m: Maths.Math, albedo: real, e: Emitter) returns (scattered: bool)
    requires Maths.SqrtLaw(m) && HalfOpenUnit(rng) && Direction(p, m)
    modifies p, rng
    ensures rng.pos == old(rng.pos) + 1 + (if old(p.z) < 0.0 then 2 else 0) + (if scattered then 2 else 0)
    ensures Direction(p, m) && 0.0 <= p.z
    ensures OpenUnit(rng) && old(p.cosTheta) < 1.0 ==> p.cosTheta < 1.0
    ensures old(p.z) < 0.0 ==> p.z == 0.0 && (scattered <==> rng.draws(old(rng.pos) + 2) < albedo)
    ensures 0.0 <= old(p.z) ==> p.z == old(p.z) && (scattered <==> rng.draws(old(rng.pos)) < albedo && p.z <= 1.0)
    ensures 0.0 <= old(p.z) && !scattered ==> HeadingOf(p) == old(HeadingOf(p))
    ensures 0.0 <= old(p.z) ==>
              && p.x == old(p.x) && p.y == old(p.y)
              && p.interactions == old(p.interactions) && p.avgTau == old(p.avgTau) && p.avgL == old(p.avgL)
    ensures old(p.z) < 0.0 ==> p.x == 0.0 && p.y == 0.0 && (e != StackCopy ==> CountersReset(p))
    ensures old(p.z) < 0.0 && !scattered ==>
              EmittedWith(p, m, rng.draws(old(rng.pos)), rng.draws(old(rng.pos) + 1))
    ensures scattered ==>
              var k := old(rng.pos) + (if old(p.z) < 0.0 then 3 else 1);
              ScatteredWith(p, m, rng.draws(k), rng.draws(k + 1))
  {
    if p.z < 0.0 {
      Reemit(p, rng, m, e);
    }
    var xi := rng.Uniform();
    scattered := xi < albedo && p.z <= 1.0;
    if scattered {
      Scatter(p, rng, m);
    }
  }

  /** Appending a pass adds its optical depth to the total, and the record
      stays one of passes from inside the slab, never re-emitted, exactly
      when the new pass is. */
  lemma AppendFlight(flights: seq<Flight>, f: Flight)
    ensures TauTotal(flights + [f]) == TauTotal(flights) + f.tau
    ensures FromSlab(flights + [f]) <==> FromSlab(flights) && 0.0 <= f.zPre <= 1.0 && 0.0 <= f.tau
    ensures NeverReemitted(flights + [f]) <==> NeverReemitted(flights) && 0.0 <= f.zPost
  {
    var g := flights + [f];
    assert g[..|flights|] == flights;
    assert g[|flights|] == f;
    assert forall k :: 0 <= k < |flights| ==> g[k] == flights[k];
  }

  /** The loop `while (z >= 0.0 && z <= 1.0)` shared by the three
      revisions, run for at most `fuel` passes (`completed` is false when the
      fuel ran out with the packet still inside, or when the packet starts
      below the slab and the loop does not run). Starting the counter at
      `intCount0`, it returns the counter (the start plus one per pass), the
      distance total `L_tot` and the optical-depth total `tau_tot`. On
      completion the packet is above the slab, with the direction of its
      last flight, unscattered and pointing up; it is never left below the
      slab. */
  method Passes(p: Packet, rng: Rng, m: Maths.Math, albedo: real, tauMax: real, e: Emitter,
                intCount0: int, fuel: nat)
    returns (completed: bool, intCount: int, lTot: real, tauTot: real, ghost flights: seq<Flight>)
    requires Maths.SqrtLaw(m) && Maths.LogLaw(m) && HalfOpenUnit(rng) && 0.0 < tauMax
    requires Direction(p, m)
    modifies p, rng
    ensures intCount == intCount0 + |flights| && |flights| <= fuel
    ensures tauTot == TauTotal(flights) && lTot == tauTot / tauMax
    ensures FromSlab(flights) && Direction(p, m) && (flights != [] ==> 0.0 <= p.z)
    ensures OpenUnit(rng) && old(p.cosTheta) < 1.0 ==> p.cosTheta < 1.0
    ensures completed <==> 1.0 < p.z
    ensures !completed && 0.0 <= old(p.z) ==> |flights| == fuel
    ensures 0.0 <= old(p.z) <= 1.0 && 1 <= fuel ==> 1 <= |flights|
    ensures flights != [] ==> flights[0].zPre == old(p.z) && flights[0].cosTheta == old(p.cosTheta)
    ensures flights == [] ==> p.z == old(p.z) && p.cosTheta == old(p.cosTheta)
    ensures 1.0 < p.z && flights != [] ==>
              var last := flights[|flights| - 1];
              !last.scattered && last.zPost == p.z && last.cosTheta == p.cosTheta && 0.0 < p.cosTheta
    ensures NeverReemitted(flights) ==>
              p.interactions == old(p.interactions) && p.avgTau == old(p.avgTau) && p.avgL == old(p.avgL)
  {
    intCount, lTot, tauTot := intCount0, 0.0, 0.0;
    flights := [];
    var left := fuel;
    while 0.0 <= p.z <= 1.0 && 0 < left
      invariant intCount == intCount0 + |flights| && |flights| + left == fuel
      invariant tauTot == TauTotal(flights) && lTot == tauTot / tauMax
      invariant FromSlab(flights) && Direction(p, m) && (flights != [] ==> 0.0 <= p.z)
      invariant OpenUnit(rng) && old(p.cosTheta) < 1.0 ==> p.cosTheta < 1.0
      invariant flights != [] ==> flights[0].zPre == old(p.z) && flights[0].cosTheta == old(p.cosTheta)
      invariant flights == [] ==> p.z == old(p.z) && p.cosTheta == old(p.cosTheta)
      invariant 1.0 < p.z && flights != [] ==>
                  var last := flights[|flights| - 1];
                  !last.scattered && last.zPost == p.z && last.cosTheta == p.cosTheta && 0.0 < p.cosTheta
      invariant NeverReemitted(flights) ==>
                  p.interactions == old(p.interactions) && p.avgTau == old(p.avgTau) && p.avgL == old(p.avgL)
      decreases left
    {
      left := left - 1;
      var tau, L, f := Iterate(p, rng, m, albedo, tauMax, e);
      AppendFlight(flights, f);
      DivAdd(tauTot, tau, tauMax);
      flights := flights + [f];
      intCount := intCount + 1;
      lTot := lTot + L;
      tauTot := tauTot + tau;
    }
    completed := 1.0 < p.z;
  }
}
