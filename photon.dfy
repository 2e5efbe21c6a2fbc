/** The photon packet of the C/src and C/source revisions (`Photon` in
    C/src/plane_vars.h and C/source/plane_vars.h): the absorb flag, the
    interaction counter, the position and the direction cosines and sines.
    The transport functions update it in place, given its address. */
module CPhoton {

  class Photon {
    /** `int absorb`: TRUE once the packet has been absorbed. */
    var absorb: bool
    /** `int n_inters`. */
    var nInters: int
    var x: real
    var y: real
    var z: real
    var cosTheta: real
    var sinTheta: real
    var cosPhi: real
    var sinPhi: real

    /** `Photon packet;`: a stack variable whose fields hold whatever the
        memory held until the packet is emitted. */
    constructor ()
    {
    }
  }
}
