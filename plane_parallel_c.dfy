/** The plane_parallel_c revision: `transport_photon` of
    plane_parallel_c/transport.c, whose interaction counter is never
    initialised and whose re-emission copies a freshly allocated packet over
    the current one, and `scatter_photon` of plane_parallel_c/packet.c, the
    same loop without counters, re-emitting from a stack packet. Both have
    no absorption. Binning and intensity (plane_parallel_c/output.c) are
    those of `BatchHistogram.PhotonHist`. */
module PlaneParallelC {
  import opened Numeric
  import Maths
  import opened Random
  import opened EarlyPacket
  import opened EarlyTransport

  /** `transport_photon(packetPtr, albedo, tau_max)` with at most `fuel`
      passes. `int_count` is never initialised: `intCountStart` is whatever
      it held. On completion the packet has left through the top with the
      direction of its last flight, pointing up. `interactions` is the start
      value plus the number of passes; when that is not 0, `avg_tau` is the
      optical-depth total over it and `avg_L * tau_max == avg_tau` (when it
      is 0 the averages divide by zero and are left unspecified). */
  method TransportPhoton(p: Packet, rng: Rng, m: Maths.Math, albedo: real, tauMax: real,
                         intCountStart: int, fuel: nat)
    returns (completed: bool, ghost flights: seq<Flight>)
    requires Maths.SqrtLaw(m) && Maths.LogLaw(m) && HalfOpenUnit(rng) && 0.0 < tauMax
    requires Direction(p, m)
    modifies p, rng
    ensures completed <==> 1.0 < p.z
    ensures !completed && 0.0 <= old(p.z) ==> |flights| == fuel
    ensures FromSlab(flights) && Direction(p, m) && (flights != [] ==> 0.0 <= p.z)
    ensures |flights| <= fuel && p.interactions == intCountStart + |flights|
    ensures 0.0 <= old(p.z) <= 1.0 && 1 <= fuel ==> 1 <= |flights|
    ensures p.interactions != 0 ==>
              p.avgTau == TauTotal(flights) / p.interactions as real && p.avgL * tauMax == p.avgTau
    ensures completed && flights != [] ==>
              var last := flights[|flights| - 1];
              !last.scattered && last.zPost == p.z && last.cosTheta == p.cosTheta && 0.0 < p.cosTheta
  {
    var intCount, lTot, tauTot;
    completed, intCount, lTot, tauTot, flights := Passes(p, rng, m, albedo, tauMax, HeapCopy, intCountStart, fuel);
    if intCount != 0 {
      p.avgL := lTot / intCount as real;
      p.avgTau := tauTot / intCount as real;
      RescaleQuotient(tauTot, tauMax, intCount as real);
    } else {
      p.avgL := *;
      p.avgTau := *;
    }
    p.interactions := intCount;
  }

  /** `scatter_photon(packetPtr, albedo, tau_max)` of
      plane_parallel_c/packet.c with at most `fuel` passes: the loop with no
      counters. On completion the packet has left through the top with the
      direction of its last flight, pointing up. A re-emission copies the
      stack packet of that file's `emit_photon`, whose counters are never
      assigned; without one the counters are untouched. */
  method ScatterPhoton(p: Packet, rng: Rng, m: Maths.Math, albedo: real, tauMax: real, fuel: nat)
    returns (completed: bool, ghost flights: seq<Flight>)
    requires Maths.SqrtLaw(m) && Maths.LogLaw(m) && HalfOpenUnit(rng) && 0.0 < tauMax
    requires Direction(p, m)
    modifies p, rng
    ensures completed <==> 1.0 < p.z
    ensures !completed && 0.0 <= old(p.z) ==> |flights| == fuel
    ensures FromSlab(flights) && Direction(p, m) && (flights != [] ==> 0.0 <= p.z)
    ensures |flights| <= fuel
    ensures completed && flights != [] ==>
              var last := flights[|flights| - 1];
              !last.scattered && last.zPost == p.z && last.cosTheta == p.cosTheta && 0.0 < p.cosTheta
    ensures NeverReemitted(flights) ==>
              p.interactions == old(p.interactions) && p.avgTau == old(p.avgTau) && p.avgL == old(p.avgL)
  {
    var intCount, lTot, tauTot;
    completed, intCount, lTot, tauTot, flights := Passes(p, rng, m, albedo, tauMax, StackCopy, 0, fuel);
  }
}
