/** The photon packet of the early C revisions (`struct photon` in C/plane.h
    and plane_parallel_c/plane.h) and the routines that fill and move it:
    the three `emit_photon` variants (fill a given packet, fill a fresh heap
    packet, fill a stack packet and hand it back), the position update and
    the isotropic re-direction the transport loops perform in line. Every
    draw is `rand()/RAND_MAX`, which can be exactly 1. */
module EarlyPacket {
  import Maths
  import opened Random

  class Packet {
    var x: real
    var y: real
    var z: real
    var cosTheta: real
    var sinTheta: real
    var phi: real
    var cosPhi: real
    var sinPhi: real
    /** `int interactions`: interactions counted by the transport. */
    var interactions: int
    /** `double avg_tau`: mean optical depth per flight. */
    var avgTau: real
    /** `double avg_L`: mean distance per flight. */
    var avgL: real

    /** A packet whose fields hold whatever the memory held. */
    constructor ()
    {
    }

    /** The struct assignment `*packetPtr = *q`: every field is copied. */
    method CopyFrom(q: Packet)
      modifies this
      ensures x == q.x && y == q.y && z == q.z
      ensures cosTheta == q.cosTheta && sinTheta == q.sinTheta
      ensures phi == q.phi && cosPhi == q.cosPhi && sinPhi == q.sinPhi
      ensures interactions == q.interactions && avgTau == q.avgTau && avgL == q.avgL
    {
      x, y, z := q.x, q.y, q.z;
      cosTheta, sinTheta := q.cosTheta, q.sinTheta;
      phi, cosPhi, sinPhi := q.phi, q.cosPhi, q.sinPhi;
      interactions, avgTau, avgL := q.interactions, q.avgTau, q.avgL;
    }
  }

  /** The position and direction `emit_photon` gives a packet from its two
      draws: the origin, cos theta = sqrt(u1) with sin theta computed from
      it, and phi = 2 pi u2 with its cosine and sine. */
  ghost predicate EmittedWith(p: Packet, m: Maths.Math, u1: real, u2: real)
    reads p
  {
    && p.x == 0.0 && p.y == 0.0 && p.z == 0.0
    && p.cosTheta == m.sqrt(u1) && p.sinTheta == Maths.SineOf(m, p.cosTheta)
    && p.phi == Maths.Azimuth(m, u2) && p.cosPhi == m.cos(p.phi) && p.sinPhi == m.sin(p.phi)
  }

  /** The direction fields of a packet, compared before and after a pass. */
  datatype Heading = Heading(cosTheta: real, sinTheta: real, phi: real, cosPhi: real, sinPhi: real)

  /** The direction a packet holds. */
  function HeadingOf(p: Packet): Heading
    reads p
  {
    Heading(p.cosTheta, p.sinTheta, p.phi, p.cosPhi, p.sinPhi)
  }

  /** The direction the isotropic scattering gives a packet from its two
      draws: cos theta = 2 u1 - 1 with sin theta computed from it, and
      phi = 2 pi u2 with its cosine and sine. */
  ghost predicate ScatteredWith(p: Packet, m: Maths.Math, u1: real, u2: real)
    reads p
  {
    && p.cosTheta == 2.0 * u1 - 1.0 && p.sinTheta == Maths.SineOf(m, p.cosTheta)
    && p.phi == Maths.Azimuth(m, u2) && p.cosPhi == m.cos(p.phi) && p.sinPhi == m.sin(p.phi)
  }

  /** A direction the packet can hold when the draws lie in (0,1]:
      -1 < cos theta <= 1, sin theta computed from it. */
  ghost predicate Direction(p: Packet, m: Maths.Math)
    reads p
  {
    -1.0 < p.cosTheta <= 1.0 && p.sinTheta == Maths.SineOf(m, p.cosTheta)
  }

  /** The counters `emit_photon` resets. */
  ghost predicate CountersReset(p: Packet)
    reads p
  {
    p.interactions == 0 && p.avgTau == 0.0 && p.avgL == 0.0
  }

  /** cos theta = sqrt(u) of an emission from u in (0,1] lies in (0,1] (below
      1 when u is), and sin theta = sqrt(1 - cos^2) is non-negative and
      completes it to a unit vector. */
  lemma EmissionCosine(m: Maths.Math, u: real)
    requires Maths.SqrtLaw(m) && 0.0 < u <= 1.0
    ensures 0.0 < m.sqrt(u) <= 1.0 && (u < 1.0 ==> m.sqrt(u) < 1.0)
    ensures 0.0 <= Maths.SineOf(m, m.sqrt(u))
    ensures m.sqrt(u) * m.sqrt(u) + Maths.SineOf(m, m.sqrt(u)) * Maths.SineOf(m, m.sqrt(u)) == 1.0
  {
    Maths.SqrtUnit(m, u);
    Maths.SineOfCosine(m, m.sqrt(u));
  }

  /** Fill the position and direction of `p` from two draws, the body shared
      by the `emit_photon` variants. */
  method Emit(p: Packet, rng: Rng, m: Maths.Math)
    modifies p, rng
    ensures rng.pos == old(rng.pos) + 2
    ensures EmittedWith(p, m, rng.draws(old(rng.pos)), rng.draws(old(rng.pos) + 1))
    ensures p.interactions == old(p.interactions) && p.avgTau == old(p.avgTau) && p.avgL == old(p.avgL)
    ensures Maths.SqrtLaw(m) && HalfOpenUnit(rng) ==> Direction(p, m) && 0.0 < p.cosTheta && 0.0 <= p.sinTheta
    ensures Maths.SqrtLaw(m) && OpenUnit(rng) ==> p.cosTheta < 1.0
  {
    var u1 := rng.Uniform();
    var cosTheta := m.sqrt(u1);
    var u2 := rng.Uniform();
    var phi := Maths.Azimuth(m, u2);
    p.x, p.y, p.z := 0.0, 0.0, 0.0;
    p.cosTheta, p.sinTheta := cosTheta, Maths.SineOf(m, cosTheta);
    p.phi, p.cosPhi, p.sinPhi := phi, m.cos(phi), m.sin(phi);
    if Maths.SqrtLaw(m) && HalfOpenUnit(rng) {
      EmissionCosine(m, u1);
    }
  }

  /** `emit_photon(packetPtr)` of C/photon_packet.c: the packet at the
      origin, pointing up at cos theta = sqrt(U) in (0,1], phi = 2 pi U';
      the interaction counter and both averages reset to 0, so every field
      of the struct is assigned. */
  method EmitPhoton(p: Packet, rng: Rng, m: Maths.Math)
    modifies p, rng
    ensures rng.pos == old(rng.pos) + 2
    ensures EmittedWith(p, m, rng.draws(old(rng.pos)), rng.draws(old(rng.pos) + 1))
    ensures CountersReset(p)
    ensures Maths.SqrtLaw(m) && HalfOpenUnit(rng) ==> Direction(p, m) && 0.0 < p.cosTheta && 0.0 <= p.sinTheta
    ensures Maths.SqrtLaw(m) && OpenUnit(rng) ==> p.cosTheta < 1.0
  {
    Emit(p, rng, m);
    p.interactions := 0;
    p.avgTau := 0.0;
    p.avgL := 0.0;
  }

  /** `emit_photon()` of plane_parallel_c/photon_packet.c: a freshly
      allocated packet, filled like the one of C/photon_packet.c. */
  method NewPhoton(rng: Rng, m: Maths.Math) returns (p: Packet)
    modifies rng
    ensures fresh(p)
    ensures rng.pos == old(rng.pos) + 2
    ensures EmittedWith(p, m, rng.draws(old(rng.pos)), rng.draws(old(rng.pos) + 1))
    ensures CountersReset(p)
    ensures Maths.SqrtLaw(m) && HalfOpenUnit(rng) ==> Direction(p, m) && 0.0 < p.cosTheta && 0.0 <= p.sinTheta
    ensures Maths.SqrtLaw(m) && OpenUnit(rng) ==> p.cosTheta < 1.0
  {
    p := new Packet();
    EmitPhoton(p, rng, m);
  }

  /** `emit_photon()` of plane_parallel_c/packet.c: a stack packet whose
      position and direction are filled and whose counters are never
      assigned, handed back to be copied. */
  method NewStackPhoton(rng: Rng, m: Maths.Math) returns (p: Packet)
    modifies rng
    ensures fresh(p)
    ensures rng.pos == old(rng.pos) + 2
    ensures EmittedWith(p, m, rng.draws(old(rng.pos)), rng.draws(old(rng.pos) + 1))
    ensures Maths.SqrtLaw(m) && HalfOpenUnit(rng) ==> Direction(p, m) && 0.0 < p.cosTheta && 0.0 <= p.sinTheta
    ensures Maths.SqrtLaw(m) && OpenUnit(rng) ==> p.cosTheta < 1.0
  {
    p := new Packet();
    Emit(p, rng, m);
  }

  /** The position update of the transport loops: the packet moves a
      distance L along its direction; direction and counters are kept. */
  method Move(p: Packet, L: real)
    modifies p
    ensures p.x == old(p.x) + L * p.sinTheta * p.cosPhi
    ensures p.y == old(p.y) + L * p.sinTheta * p.sinPhi
    ensures p.z == old(p.z) + L * p.cosTheta
    ensures p.cosTheta == old(p.cosTheta) && p.sinTheta == old(p.sinTheta)
    ensures p.phi == old(p.phi) && p.cosPhi == old(p.cosPhi) && p.sinPhi == old(p.sinPhi)
    ensures p.interactions == old(p.interactions) && p.avgTau == old(p.avgTau) && p.avgL == old(p.avgL)
  {
    p.x := p.x + L * p.sinTheta * p.cosPhi;
    p.y := p.y + L * p.sinTheta * p.sinPhi;
    p.z := p.z + L * p.cosTheta;
  }

  /** The isotropic scattering of the transport loops: cos theta = 2U - 1,
      sin theta from it, phi = 2 pi U' with its cosine and sine; position
      and counters are kept. */
  method Scatter(p: Packet, rng: Rng, m: Maths.Math)
    modifies p, rng
    ensures rng.pos == old(rng.pos) + 2
    ensures ScatteredWith(p, m, rng.draws(old(rng.pos)), rng.draws(old(rng.pos) + 1))
    ensures p.x == old(p.x) && p.y == old(p.y) && p.z == old(p.z)
    ensures p.interactions == old(p.interactions) && p.avgTau == old(p.avgTau) && p.avgL == old(p.avgL)
    ensures HalfOpenUnit(rng) ==> Direction(p, m)
    ensures OpenUnit(rng) ==> p.cosTheta < 1.0
  {
    var u1 := rng.Uniform();
    p.cosTheta := 2.0 * u1 - 1.0;
    p.sinTheta := Maths.SineOf(m, p.cosTheta);
    var u2 := rng.Uniform();
    p.phi := Maths.Azimuth(m, u2);
    p.cosPhi := m.cos(p.phi);
    p.sinPhi := m.sin(p.phi);
  }
}
