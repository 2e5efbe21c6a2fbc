/** The Rust revision Rust/mcrt/src/main.rs: a `PhotonPacket` struct that
    `emit_photon` builds, `scatter_photon` and `move_photon` update through
    `&mut`, and `transport_photons`, which runs every packet until it
    escapes. Both samplers draw cos theta = sqrt(U), so no direction points
    down, and the step length is `tau_max / tau_scat` as written (the other
    revisions divide the other way); it is positive, so a packet never
    falls and never leaves through the bottom. A failed albedo draw keeps
    the direction: there is no absorption. The draws are
    `gen_range(0.0, 1.0)`, in [0,1), with 0 excluded. */
module RustMcrt {
  import opened Numeric
  import Maths
  import opened Random
  import opened EarlyTransport

  /** `n_photons: i32 = 1e5 as i32`. */
  const N_PHOTONS: int := 100000
  /** `progress = n_photons / 10`. */
  const PROGRESS: int := 10000
  /** `scat_albedo = 1.0`. */
  const SCAT_ALBEDO: real := 1.0
  /** `tau_max = 7.0`. */
  const TAU_MAX: real := 7.0

  /** The largest i32, `i32::MAX`. */
  const I32_MAX: int := 0x7fff_ffff

  class PhotonPacket {
    var x: real
    var y: real
    var z: real
    var cosTheta: real
    var sinTheta: real
    var cosPhi: real
    var sinPhi: real
    var escaped: bool

    /** A direction as both samplers build it from draws in (0,1):
        0 < cos theta < 1 with sin theta = sqrt(1 - cos^2 theta), and cos phi
        in [-1,1] with sin phi = sqrt(1 - cos^2 phi). */
    ghost predicate Drawn(m: Maths.Math)
      reads this
    {
      && 0.0 < cosTheta < 1.0 && sinTheta == Maths.SineOf(m, cosTheta)
      && -1.0 <= cosPhi <= 1.0 && sinPhi == Maths.SineOf(m, cosPhi)
    }

    /** The direction: cos theta, sin theta, cos phi, sin phi. */
    function HeadingOf(): (real, real, real, real)
      reads this
    {
      (cosTheta, sinTheta, cosPhi, sinPhi)
    }

    /** The direction both samplers give from the draws u1, u2:
        cos theta = sqrt(u1), cos phi = cos(2 pi u2), each sine as
        sqrt(1 - cos^2). */
    ghost predicate DrawnFrom(m: Maths.Math, u1: real, u2: real)
      reads this
    {
      && cosTheta == m.sqrt(u1) && sinTheta == Maths.SineOf(m, cosTheta)
      && cosPhi == m.cos(Maths.Azimuth(m, u2)) && sinPhi == Maths.SineOf(m, cosPhi)
    }

    /** `emit_photon()`: a packet built by `Emit`. */
    constructor (rng: Rng, m: Maths.Math)
      modifies rng
      ensures x == 0.0 && y == 0.0 && z == 0.0 && !escaped
      ensures rng.pos == old(rng.pos) + 2
      ensures DrawnFrom(m, rng.draws(old(rng.pos)), rng.draws(old(rng.pos) + 1))
      ensures Maths.SqrtLaw(m) && Maths.TrigLaw(m) && OpenUnit(rng) ==> Drawn(m)
    {
      new;
      Emit(rng, m);
    }

    /** The value `emit_photon()` returns, written over this packet (as
        `photon = emit_photon()` overwrites the binding): at the origin, not
        escaped, cos theta = sqrt(U) in (0,1) with sin theta from it, and
        cos phi = cos(2 pi U') with sin phi = sqrt(1 - cos^2 phi), the four
        statements `scatter_photon` also runs. */
    method Emit(rng: Rng, m: Maths.Math)
      modifies this, rng
      ensures x == 0.0 && y == 0.0 && z == 0.0 && !escaped
      ensures rng.pos == old(rng.pos) + 2
      ensures DrawnFrom(m, rng.draws(old(rng.pos)), rng.draws(old(rng.pos) + 1))
      ensures Maths.SqrtLaw(m) && Maths.TrigLaw(m) && OpenUnit(rng) ==> Drawn(m)
    {
      x, y, z := 0.0, 0.0, 0.0;
      escaped := false;
      Scatter(rng, m);
    }

    /** `scatter_photon(&mut photon)`: the same draws as the emission,
        cos theta = sqrt(U) and cos phi = cos(2 pi U'), so the new direction
        never points down; the position and `escaped` are kept. */
    method Scatter(rng: Rng, m: Maths.Math)
      modifies this, rng
      ensures x == old(x) && y == old(y) && z == old(z) && escaped == old(escaped)
      ensures rng.pos == old(rng.pos) + 2
      ensures DrawnFrom(m, rng.draws(old(rng.pos)), rng.draws(old(rng.pos) + 1))
      ensures Maths.SqrtLaw(m) && Maths.TrigLaw(m) && OpenUnit(rng) ==> Drawn(m)
    {
      var u1 := rng.Uniform();
      cosTheta := m.sqrt(u1);
      sinTheta := Maths.SineOf(m, cosTheta);
      var u2 := rng.Uniform();
      cosPhi := m.cos(Maths.Azimuth(m, u2));
      sinPhi := Maths.SineOf(m, cosPhi);
      if Maths.SqrtLaw(m) && Maths.TrigLaw(m) && OpenUnit(rng) {
        Maths.SqrtUnit(m, u1);
        Maths.TrigBounds(m, Maths.Azimuth(m, u2));
      }
    }

    /** `move_photon(&mut photon, length)`: the position moves `length`
        along the direction; nothing else changes. */
    method Move(length: real)
      modifies this
      ensures x == old(x) + length * sinTheta * cosPhi
      ensures y == old(y) + length * sinTheta * sinPhi
      ensures z == old(z) + length * cosTheta
      ensures cosTheta == old(cosTheta) && sinTheta == old(sinTheta)
      ensures cosPhi == old(cosPhi) && sinPhi == old(sinPhi) && escaped == old(escaped)
    {
      x := x + length * sinTheta * cosPhi;
      y := y + length * sinTheta * sinPhi;
      z := z + length * cosTheta;
    }

    /** One pass of `while photon.escaped == false`: tau_scat = -ln(U) > 0,
        a move of `tau_max / tau_scat`, then re-emission below the slab,
        escape above it, or inside it a draw that scatters when it is below
        the albedo and otherwise keeps the direction. With a positive
        tau_max the step is positive and the packet does not fall: the
        pass ends no lower than it started, so from inside the slab the
        re-emission branch is never taken. A re-emission takes the two
        draws after tau_scat, a scattering the two after the albedo draw. */
    method Pass(rng: Rng, m: Maths.Math, tauMax: real, albedo: real) returns (distMove: real, ghost f: Flight)
      requires Maths.SqrtLaw(m) && Maths.LogLaw(m) && Maths.TrigLaw(m) && OpenUnit(rng) && 0.0 < tauMax
      requires Drawn(m)
      modifies this, rng
      ensures Drawn(m)
      ensures f.zPre == old(z) && f.cosTheta == old(cosTheta) && 0.0 < f.tau
      ensures f.tau == -1.0 * m.log(rng.draws(old(rng.pos))) && distMove == tauMax / f.tau
      ensures f.zPost == old(z) + distMove * old(cosTheta) && f.zPre <= f.zPost
      ensures rng.pos == old(rng.pos) + 1 + BranchDraws(f.zPost, f.scattered)
      ensures f.zPost < 0.0 ==> z == 0.0 && !escaped && !f.scattered
      ensures 1.0 < f.zPost ==> z == f.zPost && escaped && !f.scattered
      ensures 0.0 <= f.zPost <= 1.0 ==>
                z == f.zPost && escaped == old(escaped) &&
                (f.scattered <==> rng.draws(old(rng.pos) + 1) < albedo)
      ensures RustPassEffect(this, m, rng.draws, old(rng.pos), distMove, f)
    {
      ghost var z0, c0 := z, cosTheta;
      var tauScat;
      tauScat, distMove := Advance(rng, m, tauMax);
      ghost var x1, y1 := x, y;
      var scattered := Branch(rng, m, albedo);
      f := Flight(z0, z0 + distMove * c0, c0, tauScat, scattered);
      assert 0.0 <= f.zPost ==> x == x1 && y == y1;
    }

    /** The start of a pass: tau_scat = -ln(U), positive, and the move by
        `dist_move = tau_max / tau_scat`, which does not lower the packet. */
    method Advance(rng: Rng, m: Maths.Math, tauMax: real) returns (tauScat: real, distMove: real)
      requires Maths.LogLaw(m) && OpenUnit(rng) && 0.0 < tauMax && 0.0 < cosTheta
      modifies this, rng
      ensures rng.pos == old(rng.pos) + 1
      ensures tauScat == -1.0 * m.log(rng.draws(old(rng.pos))) && 0.0 < tauScat
      ensures distMove == tauMax / tauScat && 0.0 < distMove
      ensures x == old(x) + distMove * old(sinTheta) * old(cosPhi)
      ensures y == old(y) + distMove * old(sinTheta) * old(sinPhi)
      ensures z == old(z) + distMove * old(cosTheta) && old(z) < z
      ensures HeadingOf() == old(HeadingOf()) && escaped == old(escaped)
    {
      var u := rng.Uniform();
      tauScat := -1.0 * m.log(u);
      distMove := tauMax / tauScat;
      DivPositive(tauMax, tauScat);
      Move(distMove);
      SignOfProduct(distMove, cosTheta);
    }

    /** The end of a pass on the moved packet: re-emission below the slab,
        escape above it, otherwise a draw that scatters below the albedo. A
        re-emission takes the next two draws, a scattering the two after
        the albedo draw; only those change the direction. */
    method Branch(rng: Rng, m: Maths.Math, albedo: real) returns (scattered: bool)
      requires Maths.SqrtLaw(m) && Maths.TrigLaw(m) && OpenUnit(rng) && Drawn(m)
      modifies this, rng
      ensures Drawn(m)
      ensures rng.pos == old(rng.pos) + BranchDraws(old(z), scattered)
      ensures old(z) < 0.0 ==>
                x == 0.0 && y == 0.0 && z == 0.0 && !escaped && !scattered &&
                DrawnFrom(m, rng.draws(old(rng.pos)), rng.draws(old(rng.pos) + 1))
      ensures 1.0 < old(z) ==> escaped && !scattered
      ensures 0.0 <= old(z) <= 1.0 ==>
                escaped == old(escaped) && (scattered <==> rng.draws(old(rng.pos)) < albedo)
      ensures 0.0 <= old(z) ==> x == old(x) && y == old(y) && z == old(z)
      ensures scattered ==> DrawnFrom(m, rng.draws(old(rng.pos) + 1), rng.draws(old(rng.pos) + 2))
      ensures !scattered && 0.0 <= old(z) ==> HeadingOf() == old(HeadingOf())
    {
      scattered := false;
      if z < 0.0 {
        Emit(rng, m);
      } else if z > 1.0 {
        escaped := true;
      } else {
        var xi := rng.Uniform();
        if xi < albedo {
          Scatter(rng, m);
          scattered := true;
        }
      }
    }
  }

  /** The draws the branch after a move takes: two for a re-emission below
      the slab, none above it, the albedo draw inside it and two more for a
      scattering. */
  function BranchDraws(z: real, scattered: bool): nat
  {
    if z < 0.0 then 2 else if 1.0 < z then 0 else if scattered then 3 else 1
  }

  /** Where a pass leaves packet p, `start` being the position of its
      tau_scat draw: below the slab it is re-emitted with the direction of
      the next two draws; otherwise it has moved `distMove` along its old
      direction, and that direction is the one the two draws after the
      albedo draw give when it scattered and the old one when it did not. */
  twostate predicate RustPassEffect(p: PhotonPacket, m: Maths.Math, draws: nat -> real, start: nat, distMove: real, f: Flight)
    reads p
  {
    && (f.zPost < 0.0 ==> p.x == 0.0 && p.y == 0.0 && p.DrawnFrom(m, draws(start + 1), draws(start + 2)))
    && (0.0 <= f.zPost ==>
          p.x == old(p.x) + distMove * old(p.sinTheta) * old(p.cosPhi) &&
          p.y == old(p.y) + distMove * old(p.sinTheta) * old(p.sinPhi))
    && (f.scattered ==> p.DrawnFrom(m, draws(start + 2), draws(start + 3)))
    && (!f.scattered && 0.0 <= f.zPost ==> p.HeadingOf() == old(p.HeadingOf()))
  }

  /** The passes never lower the packet. */
  predicate Rising(flights: seq<Flight>)
  {
    forall k :: 0 <= k < |flights| ==> flights[k].zPre <= flights[k].zPost
  }

  /** In a chain of passes none of which lowers the packet, a later pass
      starts at least as high as an earlier one: the height never falls
      over the whole flight. */
  lemma {:induction false} HeightNeverFalls(flights: seq<Flight>, i: nat, j: nat)
    requires Chained(flights) && Rising(flights) && i <= j < |flights|
    ensures flights[i].zPre <= flights[j].zPre
    decreases j - i
  {
    if i < j {
      HeightNeverFalls(flights, i, j - 1);
      assert flights[j].zPre == flights[j - 1].zPost;
    }
  }

  /** The inner loop of `transport_photons` for one packet, with at most
      `fuel` passes. The loop runs while the packet has not escaped, and it
      never lets the packet fall: the passes chain up, none is lowered or
      re-emitted, and every pass starts inside the slab. When it finishes
      (`completed`) the packet is above the slab with the direction of its
      last pass, unscattered and pointing up. */
  method TransportPacket(photon: PhotonPacket, rng: Rng, m: Maths.Math, tauMax: real, albedo: real, fuel: nat)
    returns (completed: bool, ghost flights: seq<Flight>)
    requires Maths.SqrtLaw(m) && Maths.LogLaw(m) && Maths.TrigLaw(m) && OpenUnit(rng) && 0.0 < tauMax
    requires photon.Drawn(m) && !photon.escaped && 0.0 <= photon.z <= 1.0
    modifies photon, rng
    ensures photon.Drawn(m) && |flights| <= fuel
    ensures FromSlab(flights) && Chained(flights) && Rising(flights) && NeverReemitted(flights)
    ensures flights != [] ==> flights[0].zPre == old(photon.z) && flights[0].cosTheta == old(photon.cosTheta)
    ensures completed <==> photon.escaped
    ensures completed <==> EscapeCosine(flights) != []
    ensures completed ==> EscapeCosine(flights) == [photon.cosTheta]
    ensures completed ==> 1.0 < photon.z && 0.0 < photon.cosTheta < 1.0
    ensures !completed ==> |flights| == fuel && 0.0 <= photon.z <= 1.0
    ensures completed ==>
              flights != [] &&
              var last := flights[|flights| - 1];
              last.zPost == photon.z && last.cosTheta == photon.cosTheta && !last.scattered
  {
    flights := [];
    var left := fuel;
    while !photon.escaped && 0 < left
      invariant photon.Drawn(m) && |flights| + left == fuel
      invariant FromSlab(flights) && Chained(flights) && Rising(flights) && NeverReemitted(flights)
      invariant flights != [] ==> flights[0].zPre == old(photon.z) && flights[|flights| - 1].zPost == photon.z
      invariant flights == [] ==> !photon.escaped && photon.z == old(photon.z) && photon.cosTheta == old(photon.cosTheta)
      invariant flights != [] ==> flights[0].cosTheta == old(photon.cosTheta)
      invariant !photon.escaped ==> EscapeCosine(flights) == []
      invariant !photon.escaped ==> 0.0 <= photon.z <= 1.0
      invariant photon.escaped ==>
                  1.0 < photon.z && flights != [] &&
                  var last := flights[|flights| - 1];
                  last.cosTheta == photon.cosTheta && !last.scattered
      decreases left
    {
      left := left - 1;
      var distMove;
      ghost var f;
      distMove, f := photon.Pass(rng, m, tauMax, albedo);
      flights := flights + [f];
    }
    completed := photon.escaped;
  }

  /** What one packet of `transport_photons` did: at most `fuel` passes, the
      first from the origin, chained, rising, never re-emitted and all from
      inside the slab; all `fuel` of them unless its loop finished, which
      happens exactly when it escaped, with a cosine in (0,1). */
  predicate PacketRun(run: seq<Flight>, done: bool, fuel: nat)
  {
    && |run| <= fuel && (run != [] ==> run[0].zPre == 0.0)
    && FromSlab(run) && Chained(run) && Rising(run) && NeverReemitted(run)
    && (!done ==> |run| == fuel)
    && (done <==> EscapeCosine(run) != [])
    && (EscapeCosine(run) != [] ==> 0.0 < EscapeCosine(run)[0] < 1.0)
  }

  /** How a packet of `transport_photons` ends: it did what `PacketRun`
      says, ends with cosine c in (0,1) at height z >= 0, and, when its
      loop finished, c is the escape cosine of its passes and z is above
      the slab. */
  predicate PacketEnd(run: seq<Flight>, done: bool, c: real, z: real, fuel: nat)
  {
    && PacketRun(run, done, fuel) && 0.0 < c < 1.0 && 0.0 <= z
    && (done ==> EscapeCosine(run) == [c] && 1.0 < z)
  }

  /** `PacketEnd` for every packet so far, and `completed` is whether every
      one of their loops finished. */
  predicate PacketEnds(runs: seq<seq<Flight>>, dones: seq<bool>, cs: seq<real>, zs: seq<real>, fuel: nat, completed: bool)
  {
    && |dones| == |runs| && |cs| == |runs| && |zs| == |runs|
    && (forall k :: 0 <= k < |runs| ==> PacketEnd(runs[k], dones[k], cs[k], zs[k], fuel))
    && (completed <==> false !in dones)
  }

  /** Appending one more packet's end keeps `PacketEnds`. */
  lemma PacketEndsSnoc(runs: seq<seq<Flight>>, dones: seq<bool>, cs: seq<real>, zs: seq<real>, fuel: nat,
                       completed: bool, run: seq<Flight>, done: bool, c: real, z: real)
    requires PacketEnds(runs, dones, cs, zs, fuel, completed) && PacketEnd(run, done, c, z, fuel)
    ensures PacketEnds(runs + [run], dones + [done], cs + [c], zs + [z], fuel, completed && done)
  {
    var runs', dones', cs', zs' := runs + [run], dones + [done], cs + [c], zs + [z];
    forall k | 0 <= k < |runs'|
      ensures PacketEnd(runs'[k], dones'[k], cs'[k], zs'[k], fuel)
    {
      if k < |runs| {
        assert runs'[k] == runs[k] && dones'[k] == dones[k] && cs'[k] == cs[k] && zs'[k] == zs[k];
      }
    }
    assert dones' == dones + [done];
    if false in dones' {
      var i :| 0 <= i < |dones'| && dones'[i] == false;
      if i < |dones| {
        assert dones[i] == false;
      }
    }
    if false in dones {
      var i :| 0 <= i < |dones| && dones[i] == false;
      assert dones'[i] == false;
    }
  }

  /** One iteration of the `for` loop of `transport_photons`: `emit_photon`
      and the inner loop. The packet ends with cosine c in (0,1) at height
      z >= 0; when its loop finished, c is the escape cosine of its passes
      and z is above the slab. */
  method RunPacket(rng: Rng, m: Maths.Math, tauMax: real, albedo: real, fuel: nat)
    returns (done: bool, c: real, ghost z: real, ghost run: seq<Flight>)
    requires Maths.SqrtLaw(m) && Maths.LogLaw(m) && Maths.TrigLaw(m) && OpenUnit(rng) && 0.0 < tauMax
    modifies rng
    ensures PacketEnd(run, done, c, z, fuel)
    ensures run != [] ==> run[0].cosTheta == m.sqrt(rng.draws(old(rng.pos)))
  {
    var photon := new PhotonPacket(rng, m);
    done, run := TransportPacket(photon, rng, m, tauMax, albedo, fuel);
    c, z := photon.cosTheta, photon.z;
  }

  /** `transport_photons(n_photons, progress, tau_max, scat_albedo)` with at
      most `fuel` passes per packet: `for n in 1..n_photons + 1` emits and
      transports exactly max(n_photons, 0) packets, one after another;
      packet k's passes are `runs[k]`. `finalCos` and `finalZ` hold the
      direction cosine, in (0,1), and the height, never below 0, each ends
      with; a packet whose loop finished ends with the escape cosine of its
      passes. When every inner loop finished, every packet escaped through
      the top. `n % progress` panics for progress = 0 and `n_photons + 1`
      overflows an i32 for n_photons = i32::MAX. */
  method TransportPhotons(nPhotons: int, progress: int, tauMax: real, scatAlbedo: real,
                          rng: Rng, m: Maths.Math, fuel: nat)
    returns (completed: bool, finalCos: seq<real>, ghost finalZ: seq<real>,
             ghost runs: seq<seq<Flight>>, ghost dones: seq<bool>)
    requires Maths.SqrtLaw(m) && Maths.LogLaw(m) && Maths.TrigLaw(m) && OpenUnit(rng) && 0.0 < tauMax
    requires -I32_MAX - 1 <= nPhotons < I32_MAX
    requires 1 <= nPhotons ==> progress != 0
    modifies rng
    ensures |finalCos| == (if nPhotons < 0 then 0 else nPhotons) && |finalZ| == |finalCos|
    ensures |runs| == |finalCos| && |dones| == |finalCos|
    ensures forall k :: 0 <= k < |finalCos| ==> 0.0 < finalCos[k] < 1.0 && 0.0 <= finalZ[k]
    ensures forall k :: 0 <= k < |runs| ==> PacketRun(runs[k], dones[k], fuel)
    ensures forall k :: 0 <= k < |runs| ==> (dones[k] ==> EscapeCosine(runs[k]) == [finalCos[k]] && 1.0 < finalZ[k])
    ensures completed <==> false !in dones
  {
    finalCos, finalZ := [], [];
    runs, dones := [], [];
    completed := true;
    var n := 1;
    while n < nPhotons + 1
      invariant 1 <= n <= (if nPhotons < 0 then 0 else nPhotons) + 1 && |finalCos| == n - 1 && |finalZ| == n - 1
      invariant PacketEnds(runs, dones, finalCos, finalZ, fuel, completed)
      decreases nPhotons + 1 - n
    {
      var done, c;
      ghost var z, run;
      done, c, z, run := RunPacket(rng, m, tauMax, scatAlbedo, fuel);
      PacketEndsSnoc(runs, dones, finalCos, finalZ, fuel, completed, run, done, c, z);
      completed := completed && done;
      finalCos, finalZ := finalCos + [c], finalZ + [z];
      runs, dones := runs + [run], dones + [done];
      n := n + 1;
    }
  }

  /** `main()`: `transport_photons` with 1e5 packets, progress every tenth,
      albedo 1 and tau_max 7; the timing and printing are left out. Every
      packet's passes are `runs[k]`; one whose loop finished ends with their
      escape cosine, and when all finished every packet escaped. */
  method Simulate(rng: Rng, m: Maths.Math, fuel: nat)
    returns (completed: bool, finalCos: seq<real>, ghost finalZ: seq<real>,
             ghost runs: seq<seq<Flight>>, ghost dones: seq<bool>)
    requires Maths.Valid(m) && OpenUnit(rng)
    modifies rng
    ensures |finalCos| == N_PHOTONS && |finalZ| == N_PHOTONS && |runs| == N_PHOTONS && |dones| == N_PHOTONS
    ensures forall k :: 0 <= k < N_PHOTONS ==> 0.0 < finalCos[k] < 1.0
    ensures forall k :: 0 <= k < N_PHOTONS ==> PacketRun(runs[k], dones[k], fuel)
    ensures forall k :: 0 <= k < N_PHOTONS ==> (dones[k] ==> EscapeCosine(runs[k]) == [finalCos[k]])
    ensures completed <==> false !in dones
    ensures completed ==> forall k :: 0 <= k < N_PHOTONS ==> 1.0 < finalZ[k]
  {
    completed, finalCos, finalZ, runs, dones := TransportPhotons(N_PHOTONS, PROGRESS, TAU_MAX, SCAT_ALBEDO, rng, m, fuel);
    if completed {
      forall k | 0 <= k < N_PHOTONS
        ensures 1.0 < finalZ[k]
      {
        assert dones[k] in dones;
      }
    }
  }
}
