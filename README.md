# Plane-parallel Monte Carlo radiative transfer, modelled in Dafny

The repository holds many revisions of one Monte Carlo radiative-transfer (MCRT)
program, written in C, Python and Rust. Photon packets are emitted at the bottom
of a plane-parallel slab, 0 <= z <= 1, whose total optical depth is `tau_max`. A
packet flies an optical depth `tau = -log(U)` drawn from an exponential
distribution, which moves it `ds = tau / tau_max` along its direction. Inside the
slab it is scattered isotropically or absorbed, depending on an albedo draw. A
packet that falls out of the bottom is re-emitted. A packet that leaves through
the top is binned by the cosine of its escape angle. The bins are converted to a
flux-normalised intensity per escape angle. The canonical C/src revision also
records, for every flight, which of the slab's `n_levels + 1` heights `i / n_levels`
it crosses, up or down, in six radiation-moment arrays (J, H and K, each for both
directions).

The project models the transport state machine, the moment estimator, the
histogram and the driver loop of every revision, each in its own module. The
modules keep the revisions' differences: strict or inclusive albedo tests, a
counter that is reset on re-emission or never initialised, no absorption, no
re-emission, a dead upward loop, and an inverted step length. What each module
does not capture, such as floating point, the generators and what a packet does
after its fuel runs out, is listed under "Left out".

Modelling choices shared by every module:

- **Random numbers.** `Random.Rng` holds the whole stream the generator would
  produce (`draws: nat -> real`) and its current position. Every call of the
  generator is `Uniform()`, so the order in which each revision consumes draws
  is part of the model. The generator ranges are predicates on the stream:
  - `OpenUnit`: every draw is in (0,1). This is GSL's `gsl_rng_uniform_pos`. It
    is also used for numpy and Rust, whose range is [0,1): the draw 0, which
    makes `-log(0)` infinite, is excluded.
  - `HalfOpenUnit`: every draw is in (0,1]. This is `rand()/RAND_MAX`.
- **Transcendental functions.** A `Maths.Math` value supplies sqrt, log, cos,
  sin, acos and pi. The law predicates `SqrtLaw`, `LogLaw`, `TrigLaw` and
  `AcosLaw` state the facts the proofs rely on, and real arithmetic obeys all of
  them.
- **Integers.** `Numeric.Trunc` is the C `(int)` cast, Python's `int()` and
  Rust's `as`: all of them round toward zero. `Numeric.Abs` is `abs`, and
  `Numeric.Round` is the C `round()`.
- **Termination.** None of the transport loops has a step cap. Each loop takes a
  `fuel` bound and returns `completed`, which is false when the fuel ran out
  first. Ghost traces (`EarlyTransport.Flight`, `SrcMoments.Step`) record every
  pass, so the contracts can state what happened along the way and not only at
  the end.
- **State.** Structs that the source updates by address, through `&mut` or
  `self` are classes with `modifies` clauses. Arrays the source fills in place
  stay arrays. Values the source builds and returns are datatypes or
  out-parameters.

Where two revisions share code, one module models it:

- C/source/intensity.c is the same code as C/src/intensity.c, and
  `MuHistogram.MuHist` models both.
- C/transport.c, plane_parallel_c/transport.c and plane_parallel_c/packet.c
  share one loop, `EarlyTransport.Passes`. It is parameterised by the emitter
  that re-emits the packet.
- The histogram functions of Python/plane.py and Python/plane_oo.py are the same
  code, modelled once in `PyHist`. Only the argument order of `bin_photon`
  differs.
- The `bin_photons` and `calculate_intensity` of C/calculate_intensity.c and
  plane_parallel_c/output.c are the same loops, modelled once in
  `BatchHistogram.PhotonHist`.

Where the C/src revision mixes two header generations, the bodies in its .c
files were followed. C/src/transport.c:148 calls `calculate_moments`, declared
at C/src/plane_funcs.h:38, but the only body, at C/src/moments.c:79, is
`increment_radiation_moment_estimators`, which reads `n_levels` from its
struct. The model is one operation,
`SrcMoments.Moments.IncrementRadiationMomentEstimators`, whose `n_levels` is a
field of the class. Likewise C/src/transport.c:208 calls `init_jhk`, which is
only declared, at C/src/plane_funcs.h:41, with no body in C/src; the model uses
the body that exists, `init_moments` at C/src/moments.c:36, as the constructor
`SrcMoments.Moments.constructor`.

The Rust revision divides the wrong way round: its step is `tau_max / tau_scat`,
not `tau_scat / tau_max`. It is modelled as written, and its consequences are
proved: the step is positive, the packet never falls, and the re-emission branch
cannot be taken from inside the slab.

## Model

| member | source | states |
|---|---|---|
| Random.Rng.constructor | C/src/random.c:38-43 | A generator at the start of its stream. |
| Random.Rng.Uniform | C/src/random.c:61-66 | The next draw of the stream; the position advances by exactly one. |
| Numeric.Trunc | C/src/intensity.c:72 | The `(int)` cast: the integer toward zero within one of the value, no larger in magnitude. |
| Numeric.Abs | C/src/intensity.c:72 | `abs` of an int: non-negative, equal to the value or its negation. |
| Numeric.AbsReal | C/src/moments.c:134 | `fabs`: non-negative, equal to the value or its negation. |
| Numeric.TruncIsFloor | C/src/intensity.c:72 | On non-negative reals `(int)x == k` exactly when `k <= x < k + 1`. |
| Numeric.AbsTruncBelow | C/src/histogram.c:69 | `abs((int)x) < b` exactly when `-b < x < b`. |
| Numeric.Round | C/plane.c:125 | `round()`: the nearest integer, halfway cases away from zero. |
| Maths.SqrtUnit | C/photon_packet.c:27 | sqrt of a draw in [0,1] lies in [0,1], strictly inside when the draw is. |
| Maths.TrigBounds | C/photon_packet.c:35-36 | cos and sin of one angle are bounded by 1 in magnitude. |
| Maths.SineOfCosine | C/photon_packet.c:28-29 | For \|c\| <= 1, sin theta = sqrt(1 - c^2) is non-negative and c^2 + sin^2 = 1. |
| Maths.SqrtOne | C/photon_packet.c:27 | sqrt(1) = 1, so the draw 1 emits straight up. |
| Maths.DegreesRoundTrip | C/calculate_intensity.c:28 | An angle converted to degrees and back to radians is unchanged. |
| Maths.CosOfStoredDegrees | C/calculate_intensity.c:55-56 | cos of the stored degree angle `acos(x) * 180/pi`, converted back, is x. |
| Bins.BinIndexInRange | C/src/histogram.c:69 | The bin index `abs((int)(mu * n))` is below n exactly when \|mu\| < 1; mu = 1 writes index n, one past the end. |
| Bins.BinIndexScaled | C/src/histogram.c:69 | The index is below n exactly when `-n < mu * n < n`. |
| Bins.BinIndexContains | C/src/intensity.c:72-73 | For 0 <= mu < 1 the index is the unique k whose range [k/n, (k+1)/n) contains mu. |
| Bins.UnitCosineOverruns | C/calculate_intensity.c:36-37 | The escape cosine 1 gets bin index `abs((int)(1 * mu_bins))` = mu_bins, one past the last count. |
| Bins.BinCentreIsMidpoint | C/src/intensity.c:38-47 | The centre `i * d + d/2` with d = 1/n is `(i + 0.5)/n`. |
| Bins.BinCentreInside | C/src/histogram.c:37-45 | Every bin-centre cosine of bin i < n lies strictly inside (0,1). |
| Bins.BinCentreBinsToItself | C/src/intensity.c:72 | Binning a bin's centre cosine gives back that bin. |
| Bins.BinCentreIncreasing | C/src/histogram.c:37-45 | Bin centres strictly increase with the index. |
| Bins.BinAngleDecreasing | C/src/histogram.c:44-45 | The bin angles `acos(centre)` strictly decrease with the index. |
| Bins.SumUpdate | C/src/intensity.c:73 | Adding d to one count adds d to the total. |
| Bins.SumRealUpdate | C/src/histogram.c:70 | Adding d to one real weight adds d to the total. |
| Bins.SumZeros | C/src/histogram.c:40 | Zeroed counts total zero. |
| Bins.ToReals | Python/plane.py:55 | Counts held as floats: one float per count (its entries are the counts, as `SumRealOfToReals` uses). |
| Bins.SumRealOfToReals | Python/plane.py:55 | The float total of integer counts is their integer total. |
| Bins.Histogram | C/calculate_intensity.c:34-38 | One count per bin: n entries; how each count grows is `HistogramSnoc`, its total `HistogramTotal`. |
| Bins.HistogramSnoc | C/calculate_intensity.c:36-37 | Binning one more cosine adds one to its bin and changes no other. |
| Bins.HistogramStep | C/calculate_intensity.c:36-37 | One more cosine of magnitude below 1 goes to one of the n bins, and adding one to that bin gives the histogram of all the cosines. |
| Bins.HistogramRealSnoc | Python/plane.py:87 | The same step for counts held as floats: adding 1.0 to that bin gives the float histogram of all the cosines. |
| Bins.HistogramTotal | C/calculate_intensity.c:34-38 | When every \|mu\| < 1 the counts total the number of cosines binned. |
| Bins.HistogramRealTotal | plane_parallel/plane_oo.py:95-97 | The float total of the histogram of cosines of magnitude below 1 is their number. |
| Bins.CountInPermutation | C/calculate_intensity.c:34-38 | The count of a bin depends only on the multiset of cosines. |
| Bins.HistogramEmpty | C/calculate_intensity.c:25-29 | No cosines give all-zero counts. |
| Bins.IntensityMonotone | C/src/histogram.c:98-99 | Intensities of non-negative counts are non-negative and grow with the count. |
| Bins.IntegerScaledIntensity | C/src/intensity.c:104-105 | The integer product `bins[i] * mu_bins`, converted for the division, gives the intensity of that count. |
| Bins.HistogramPermutation | C/calculate_intensity.c:34-38 | The histogram does not depend on the order of the cosines. |
| BatchHistogram.CosOfThetaDegrees | C/calculate_intensity.c:55-56 | The stored degree angle of bin i, converted back before the cosine, gives the positive bin-centre cosine. |
| BatchHistogram.PhotonHist.constructor | C/plane.h:26-30 | A `struct photon_hist` with MU_BINS counts and angles. |
| BatchHistogram.PhotonHist.BinPhotons | C/calculate_intensity.c:13-41 | The first mu_bins counts become the histogram of the n_photons cosines and total n_photons; the angles are the bin-centre arc cosines in degrees; entries past mu_bins are untouched; mu_bins <= MU_BINS and \|mu\| < 1 are required. |
| BatchHistogram.PhotonHist.CalculateIntensity | C/calculate_intensity.c:50-60 | Only `intensity` is written; entry i is the intensity of count i at the bin-centre cosine. |
| BatchHistogram.CountEscapes | C/calculate_intensity.c:34-38 | From zero counts, the counts become the histogram of the cosines. |
| EarlyPacket.Packet.CopyFrom | plane_parallel_c/transport.c:41 | `*packetPtr = *q`: every field equals q's. |
| EarlyPacket.EmissionCosine | C/photon_packet.c:27-29 | cos theta = sqrt(u) of u in (0,1] lies in (0,1]; sin theta is non-negative and completes it to a unit vector. |
| EarlyPacket.Emit | C/photon_packet.c:20-36 | Two draws; the packet is at the origin with cos theta = sqrt(u1), its sine, and phi = 2 pi u2 with its cosine and sine. |
| EarlyPacket.EmitPhoton | C/photon_packet.c:15-45 | As `Emit`, and the counter and both averages are 0, so every field is assigned. |
| EarlyPacket.NewPhoton | plane_parallel_c/photon_packet.c:19-44 | A fresh packet filled as `EmitPhoton` fills one. |
| EarlyPacket.NewStackPhoton | plane_parallel_c/packet.c:6-25 | A fresh packet with position and direction filled; counters unassigned. |
| EarlyPacket.Move | C/transport.c:31-33 | The position moves L along the direction; the direction and counters are kept. |
| EarlyPacket.Scatter | C/transport.c:49-54 | cos theta = 2U - 1 in (-1,1], its sine, phi = 2 pi U'; the position and counters are kept. |
| EarlyTransport.Reemit | C/transport.c:39-42 | A re-emission: the position and direction of a new emission; counters reset except by the stack emitter. |
| EarlyTransport.TauTotalNonNegative | C/transport.c:59 | The optical-depth total of non-negative draws is non-negative. |
| EarlyTransport.SampleTau | C/transport.c:28 | tau equals -log of the draw, and it is non-negative for every draw the generator can return in (0,1]. |
| EarlyTransport.Travel | C/transport.c:28-33 | One draw: tau = -log(draw) >= 0 and L = tau / tau_max >= 0; the position moves L along the direction, which is kept with the counters. |
| EarlyTransport.Iterate | C/transport.c:28-59 | One pass from inside the slab: tau = -log(draw), L = tau / tau_max, and the move along the old direction. A packet landing below is re-emitted at the origin with the next two draws, its counters reset unless by the stack emitter, and the draw after them is its albedo draw; otherwise it stays where it landed and that draw comes next. It is scattered exactly when that draw is below the albedo and z <= 1, taking the direction of the two draws after it; otherwise it keeps the emitted or the flown direction, so above the slab it leaves upward along the direction flown. |
| EarlyTransport.AfterMove | C/transport.c:39-55 | Below the slab: re-emission at the origin with the next two draws, then the albedo draw. Scattering exactly when that draw is below the albedo and z <= 1, with the direction of the two draws after it; otherwise the emitted or the old direction. The position and counters are kept unless re-emitted. |
| EarlyTransport.AppendFlight | C/transport.c:57-59 | One more pass adds its optical depth to the total; the record stays one of passes from inside the slab, and one never re-emitted, exactly when the new pass is. |
| EarlyTransport.Passes | C/transport.c:22-60 | The counter is its start plus the number of passes; `tau_tot` and `L_tot` total the passes with `L_tot * tau_max == tau_tot`; on completion the packet is above the slab with its last, unscattered, upward direction; it is never left below. |
| EarlyTransport.EscapeCosinesSnoc | Python/plane.py:148-149 | The escape cosines of one more photon are those of the earlier photons followed by its own, if it escaped. |
| EarlyTransport.EscapeCosinesBounds | Python/plane_oo.py:193-194 | Escape cosines in (0,1) per photon give all escape cosines in (0,1); there are at most as many as photons, and as many when every photon escaped. |
| CTree.TransportPhoton | C/transport.c:17-70 | From inside the slab: on completion z > 1 with an upward escape direction; `interactions` counts every pass, at least 1; `avg_tau` is the mean optical depth and `avg_L * tau_max == avg_tau`. |
| CTree.RunPacket | C/plane.c:83-85 | One packet: emission, transport and `MU[photon_count - 1] = costheta`. The recorded cosine and count are the packet's final cosine and `interactions`, the count being the number of its passes, 1 to fuel. The first pass starts at the origin with cos theta = sqrt(first draw). When the transport completed, the recorded cosine is that of its last, unscattered pass out through the top, in (0,1]; it is in (-1,1] always and below 1 with draws in (0,1). |
| CTree.SumAtLeastLength | C/plane.c:104 | Counts of at least 1 each total at least their number. |
| CTree.Simulate | C/plane.c:78-125 | Packet k's passes are `runs[k]`: its count is their number, 1 to fuel, and when its transport completed MU[k] is the cosine of its last, unscattered pass out through the top. `completed` says every transport completed. The total is the sum of the counts, at least n_photons, and the average is its rounded mean. Every MU[k] is in (-1,1], below 1 with draws in (0,1). |
| CTree.EmissionAtUnitDraw | C/photon_packet.c:27-29 | The draw 1 emits cos theta = 1, whose bin index is mu_bins, past the last count. |
| CTree.SimulateAndBin | C/plane.c:78-125 | With draws in (0,1): the loop of `Simulate`, then the counts are the histogram of MU and total n_photons, and each intensity is that of its count at the bin-centre cosine; every cosine is in (0,1) when every transport completed. |
| PlaneParallelC.TransportPhoton | plane_parallel_c/transport.c:21-64 | On completion z > 1 with the last upward direction; `interactions` is the uninitialised start plus the passes; when non-zero, `avg_L * tau_max == avg_tau`. |
| PlaneParallelC.ScatterPhoton | plane_parallel_c/packet.c:28-59 | On completion z > 1 with the last upward direction; counters are untouched unless a stack packet is copied in. |
| Prototype.Photon.CopyFrom | plane.c:158 | `*packetPtr = *q`: every field equals q's. |
| Prototype.EmitPhoton | plane.c:114-139 | A packet at the origin, cos theta = sqrt(xi1) in (0,1] with its sine, phi = 2 pi xi2 with its cosine and sine. |
| Prototype.AfterMove | plane.c:157-170 | Below the slab: re-emission at the origin with the next two draws, then the draw xi. Scattering exactly when xi < ALBEDO and z < 1, with the direction of the two draws after xi; otherwise the emitted or the old direction. The position is kept unless re-emitted. |
| Prototype.Scatter | plane.c:164-169 | cos theta = 2U - 1, its sine, phi = 2 pi U'; the position is kept. |
| Prototype.Move | plane.c:151-153 | The position moves L along the direction, which is kept. |
| Prototype.Travel | plane.c:147-153 | One draw: tau = -log(draw) >= 0 and L = tau / TAU_MAX; the position moves L along the direction, which is kept. |
| Prototype.AlbedoTest | plane.c:161-170 | The draw xi; scattering exactly when xi < ALBEDO and z < 1, then the direction of the next two draws; otherwise the direction is kept; the position is kept. |
| Prototype.Iterate | plane.c:147-170 | One pass from inside the slab: tau = -log(draw), L = tau / TAU_MAX, the move along the old direction, re-emission with the next two draws when below, then xi. Scattering exactly when xi < ALBEDO and the pass ends below z = 1, with the direction of the two draws after xi; a pass ending at z >= 1 is not scattered and keeps the direction flown. |
| Prototype.ScatterPhoton | plane.c:142-174 | No pass ending at z >= 1 scatters; on completion z > 1 with the last upward direction; a pass landing exactly on z = 1 keeps its direction and the loop continues. |
| Prototype.RunPacket | plane.c:85-87 | One packet: emission, `scatter_photon` and `MU[photon_count] = costheta`, the final cosine. Its 1 to fuel passes start at the origin with cos theta = sqrt(first draw); when the loop completed the cosine is that of its last, unscattered pass out through the top. It is in (-1,1], below 1 with draws in (0,1). |
| Prototype.Simulate | plane.c:83-94 | N_PHOTONS packets, packet k's passes `runs[k]`: when its loop completed MU[k] is the cosine of its last, unscattered pass out through the top. Every MU[k] is in (-1,1], and below 1 only with draws in (0,1); with `rand()/RAND_MAX` it can be exactly 1. |
| Prototype.BinPhotons | plane.c:177-201 | MU_BINS counts that are the histogram of the N_PHOTONS cosines and total N_PHOTONS; the angles are the bin-centre arc cosines in degrees. \|mu\| < 1 is required, which the draws in (0,1] do not guarantee (see Findings). |
| Prototype.CalculateIntensity | plane.c:204-213 | Each p[i] is the intensity of count i at the bin-centre cosine. |
| Prototype.EmissionAtUnitDraw | plane.c:123-125 | The draw xi1 = 1 emits cos theta = 1, whose bin index is MU_BINS, past the end of `bins`. |
| Prototype.SimulateAndBin | plane.c:83-98 | With draws in (0,1): every MU is in (-1,1), the counts are the histogram of MU and total N_PHOTONS, and each p[i] is the intensity of count i at the bin-centre cosine. |
| SrcMoments.LevelsCrossed | C/src/moments.c:86-138 | Levels are crossed upward only when cos theta > 0 and downward only when cos theta < 0; which levels is stated by `UpwardLevels` and `DownwardLevels`. |
| SrcMoments.StepInRange | C/src/moments.c:94-131 | A flight starting inside the slab writes only indices 0..n_levels, wherever it ends. |
| SrcMoments.LevelBelow | C/src/moments.c:100 | For a height in the slab, its level index is below b exactly when the height is below level b. |
| SrcMoments.UpwardLevels | C/src/moments.c:92-117 | An upward flight from inside the slab increments level i exactly when its height is in (z_pre, z_post], plus level 0 when it starts on the lower boundary. |
| SrcMoments.DownwardLevels | C/src/moments.c:119-137 | A downward flight increments level i exactly when its height is in (z_post, z_pre], plus level 0 when it ends on or below the lower boundary. |
| SrcMoments.Zero | C/src/moments.c:38-43 | Six estimator arrays, each of n_levels + 1 entries. |
| SrcMoments.AddOver | C/src/moments.c:112-117 | Adding over a range keeps the length of the array. |
| SrcMoments.Increment | C/src/moments.c:79-139 | An update keeps all six arrays at n_levels + 1 entries; what it adds is stated by `WorkedExample` and `AccumulateIsCrossingSum`. |
| SrcMoments.Accumulate | C/src/transport.c:148 | The estimators after a sequence of flights keep their sizes. |
| SrcMoments.AccumulateIsCrossingSum | C/src/moments.c:112-137 | From zero, each estimator of a level is the total over its crossings: J+ sums 1/mu, H+ counts, K+ sums mu upward; J- and K- likewise downward, with H- counting negatively. |
| SrcMoments.CrossingCountBounds | C/src/moments.c:115 | The upward and the downward crossing counts of a level each lie between 0 and the number of flights, so H+ is in [0, n] and H- in [-n, 0]. |
| SrcMoments.FullCrossing | C/src/moments.c:94-117 | A flight from z = 0 out of the top crosses every level once upward and none downward. |
| SrcMoments.WorkedExample | C/src/moments.c:86-117 | With ten levels, the flight 0.05 to 0.15 with cosine 0.5 changes only level 1: H+ gains 1, J+ 2, K+ 0.5. |
| SrcMoments.Moments.constructor | C/src/moments.c:36-44 | `init_moments`: six fresh, distinct, zeroed arrays of n_levels + 1 entries. |
| SrcMoments.Moments.IncrementRadiationMomentEstimators | C/src/moments.c:79-139 | The arrays become `Increment` of their old contents by the flight; its precondition, that the crossed levels lie inside the arrays, holds for every flight that starts inside the slab (`StepInRange`). |
| SrcMoments.AddOverLevels | C/src/moments.c:112-117 | Each of the three arrays gets its value added at lo..hi and nothing else. |
| WeightHistogram.HistogramT.InitHistogram | C/src/histogram.c:35-46 | n_bins zero weights and zero intensities, and theta[i] the acos of the bin centre. |
| WeightHistogram.HistogramT.BinPhotonToHistogram | C/src/histogram.c:67-71 | One more escape in its bin only; the weights stay the histogram of the cosines binned and total their number; \|cos theta\| < 1 is required. |
| WeightHistogram.HistogramT.ConvertWeightToIntensity | C/src/histogram.c:96-100 | Only `intensity` is written: entry i is the intensity of weight i at the bin-centre cosine, and is non-negative. |
| WeightHistogram.HistogramT.WeightsNonNegative | C/src/histogram.c:70 | Every weight is non-negative. |
| MuHistogram.MuHist.InitPhotonHist | C/src/intensity.c:36-51 | mu_bins zero counts and theta[i] the acos of `(i + 0.5)/mu_bins`. |
| MuHistogram.MuHist.BinPhoton | C/src/intensity.c:70-76 | One more escape in its bin only; the counts total the escapes binned; \|cos theta\| < 1 is required. |
| MuHistogram.MuHist.CalculateIntensity | C/src/intensity.c:100-109 | Bins and angles unchanged; entry i is the intensity of count i at the bin-centre cosine, non-negative. |
| SrcTransport.RandomTau | C/src/random.c:82-85 | tau = -log(1 - U) is positive for a draw in (0,1). |
| SrcTransport.RandomThetaPhi | C/src/random.c:103-107 | theta = acos(2U - 1) and phi = 2 pi U', two draws in that order. |
| SrcTransport.IsotropicEmitPhoton | C/src/transport.c:39-57 | At the origin, `absorb` false, `n_inters` 0, phi from `random_theta_phi`, cos theta = sqrt(U'') in (0,1) and its sine. |
| SrcTransport.PhotonPosStep | C/src/transport.c:78-85 | Only the position changes, by ds along the direction. |
| SrcTransport.RandomIsotropicDirection | C/src/transport.c:160 | A new cos theta = 2U - 1 in (-1,1) with its sine and phi = 2 pi U'; position and flags kept. |
| SrcTransport.SinceReemissionBounds | C/src/transport.c:145-153 | The counter never exceeds the number of flights, and equals it exactly when none fell out of the bottom. |
| SrcTransport.FlightMoves | C/src/transport.c:80-82 | A positive flight rises with a positive cosine and falls with a negative one. |
| SrcTransport.AppendStep | C/src/transport.c:148 | One more flight extends the moments by that flight alone. |
| SrcTransport.Fly | C/src/transport.c:142-144 | One draw: ds = -log(1 - U) / tau_max > 0; the position moves ds along the direction; the direction, `absorb` and the counter are kept; the flight rises with a positive cosine and falls with a negative one. |
| SrcTransport.TransportFlight | C/src/transport.c:142-166 | One pass from inside the slab: ds = -log(1 - U) / tau_max, the move along the old direction, and the flight (height before, height after, cosine flown) added to the moments. Below the slab: `isotropic_emit_photon` at the origin from the next draws, counter 0. Inside: the next draw xi; absorbed exactly when xi > albedo, keeping its direction; otherwise the direction of the two draws after xi. Above: not absorbed, direction kept. The counter rises by one unless re-emitted. |
| SrcTransport.Interact | C/src/transport.c:150-166 | Below the slab: re-emission at the origin from the next draws, counter 0, not absorbed. Inside: absorbed exactly when the next draw xi > albedo, keeping the direction, else the direction of the two draws after xi. Above: nothing changes. The position is kept unless re-emitted. |
| SrcTransport.TransportLoop | C/src/transport.c:140-167 | The while loop from inside the slab: the moments gain every flight, each starting in the slab; the counter is the flights since the last re-emission; at most fuel flights, all of them unless completed. Completion is an absorption inside the slab, which needs albedo < 1, or an escape above it along the last flight's upward cosine. |
| SrcTransport.BinEscape | C/src/transport.c:169-170 | `bin_photon` exactly when the packet escaped: the histogram gains the escape cosine of the flights, and nothing otherwise. |
| SrcTransport.TransportPhotonConstRho | C/src/transport.c:133-173 | Emission, the loop and `bin_photon` when not absorbed: the histogram gains exactly the escape cosine of the flights, the final cosine when the packet left through the top and nothing otherwise. On completion it was absorbed inside the slab, which needs albedo < 1, or left through the top along its last flight's upward cosine. The counter is the flights since the last re-emission; the moments gain the flights. |
| SrcTransport.RunPacket | C/src/transport.c:218-219 | One packet: the moments gain its flights, the histogram its escape cosine, and its counter is the flights since the last re-emission. The flights number at most fuel, all of them unless done, start in the slab, leave an escape cosine in (0,1) if any, and leave one whenever done with albedo >= 1. |
| SrcTransport.NextPacket | C/src/transport.c:216-219 | One more packet extends the record of packets, the flights, the escapes by its escape cosine and the total by its counter; every loop finished exactly when all earlier did and this one did. |
| SrcTransport.PacketRunsIndex | C/src/transport.c:216-219 | The packet-by-packet record holds exactly when every packet did what `PacketRun` says. |
| SrcTransport.EscapesBounds | C/src/transport.c:169-170 | At most one escape per packet, each in (0,1), one per packet when every loop finished with albedo >= 1; every flight starts in the slab. |
| SrcTransport.RunsBounds | C/src/transport.c:216-219 | From the record of packets: each packet did what `PacketRun` says, and the bounds of `EscapesBounds` hold for their escapes. |
| SrcTransport.RunPackets | C/src/transport.c:216-236 | n_photons packets, packet k as `RunPacket` says; `completed` says every loop finished; the moments are those of all flights in order from zero; the histogram holds the packets' escape cosines in order, at most n_photons, each in (0,1), all n_photons when completed with albedo >= 1; `total_inters` is the sum of the counters. |
| SrcTransport.StartMcrt | C/src/transport.c:194-260 | `RunPackets` on a fresh histogram and zero moments, then the counts total the escapes binned, `average_inters` is the truncated mean of the counters, and each intensity is that of its count at the bin-centre cosine. |
| SrcTransport.AccumulateAppend | C/src/transport.c:216-218 | The moments after two runs of flights are those of their concatenation. |
| SourceMoments.SourceZero | C/source/moments.c:74-82 | Six arrays of n_levels zeros. |
| SourceMoments.SourceIncrement | C/source/moments.c:12-59 | For an upward direction nothing changes; the plus arrays never change and the array sizes are kept; a downward direction changes only levels `level2 <= i < level1`. |
| SourceMoments.AddOverEmpty | C/source/moments.c:33 | A loop over an empty range changes nothing. |
| SourceMoments.DownwardFlightEmpty | C/source/moments.c:40-56 | For z1 <= z2 with z2 >= 0, level2 > level1, so the downward loop is empty. |
| SourceMoments.InSlabFlightChangesNothing | C/source/moments.c:21-56 | Under the calls its transport loop makes, no estimator changes and no index is out of range. |
| SourceMoments.JhkMoments.InitJhk | C/source/moments.c:64-85 | Six fresh arrays of n_levels (not n_levels + 1) zeros. |
| SourceMoments.JhkMoments.CalculateMoments | C/source/moments.c:12-59 | The arrays become `SourceIncrement` of their old contents. |
| SourceTransport.AzimuthSine | C/source/transport.c:142-143 | sin phi = sqrt(1 - cos^2 phi) is non-negative and completes cos phi. |
| SourceTransport.EmitPhoton | C/source/transport.c:151-163 | At the origin with cos theta = sqrt(U) in (0,1) and cos phi = cos(2 pi U'); `absorb` and `n_inters` untouched. |
| SourceTransport.IsotropicScatter | C/source/transport.c:138-146 | cos theta = 2U - 1 in (-1,1), cos phi = cos(2 pi U'), sin phi >= 0; position and flags kept. |
| SourceTransport.InteractionsBound | C/source/transport.c:116-128 | The counter never exceeds the number of flights. |
| SourceTransport.HighAlbedoScatters | C/source/transport.c:113 | With albedo >= 1 and draws below 1 every in-slab draw scatters. |
| SourceTransport.InSlabOutcome | C/source/transport.c:111-123 | xi < albedo scatters, xi > albedo absorbs, xi == albedo does neither. |
| SourceTransport.SourceFlight | C/source/transport.c:90-129 | One pass: ds = -log(1 - U) / tau_max, the move along the old direction, and `calculate_moments` changes nothing. The outcome is a re-emission exactly when the flight ends below the slab, an escape exactly when above, and inside it is decided by the next draw xi: scattering with the direction of the two draws after xi for xi < albedo, absorption for xi > albedo, nothing on equality. A re-emission is at the origin from the next two draws and resets the counter; otherwise a scattering or the absorption adds one. `absorb` holds exactly after an absorption; an escape keeps the cosine flown. |
| SourceTransport.SourceInteract | C/source/transport.c:109-129 | The branch: a re-emission exactly when z < 0, at the origin from the next two draws, counter 0; an escape exactly when z > 1; inside, the outcome of the next draw, scattering with the two draws after it. Only a scattering or re-emission changes the direction, and only a re-emission the position; a scattering or the absorption adds one to the counter. |
| SourceTransport.FlownSnoc | C/source/transport.c:109-129 | One more flight and outcome extend the record, and the counter restarts at 0 on a re-emission and otherwise gains one for a scattering or the absorption. |
| SourceTransport.EndedSnoc | C/source/transport.c:99-129 | After one more flight the packet is where it left it: above the slab exactly when the flight ended above, and then along that flight, upward. |
| SourceTransport.TransportPhotonConstRho | C/source/transport.c:83-133 | One outcome per flight, agreeing with it; the counter is the interactions since the last re-emission; `absorb` holds exactly when the last outcome is an absorption, which needs albedo < 1; at most fuel flights, all unless completed; on completion from inside the slab the packet was absorbed inside it or left through the top; a packet above the slab ended its last flight there along its upward cosine; the moments never change. |
| SourceTransport.StartMcrt | C/source/transport.c:15-78 | `RunPackets` on a fresh histogram and n_levels-zero moments, which stay zero; the counts total the escapes binned; the average is the truncated mean of the counters; each intensity is that of its count at the bin-centre cosine. |
| SourceTransport.RunPacket | C/source/transport.c:37-42 | `emit_photon`, the transport and `bin_photon` exactly when not absorbed: the histogram gains the escape cosine of the flights, present exactly when the loop finished unabsorbed and equal to the final cosine. The first flight starts at the origin with cos theta = sqrt(first draw); the counter is the interactions of its outcomes; the moments do not change. |
| SourceTransport.NextPacket | C/source/transport.c:35-42 | One more packet extends the record of packets, the escapes by its escape cosine and the total by its counter; every loop finished exactly when all earlier did and this one did. |
| SourceTransport.SourcePacketRunsIndex | C/source/transport.c:35-42 | The packet-by-packet record holds exactly when every packet did what `SourcePacketRun` says. |
| SourceTransport.SourceRunsBounds | C/source/transport.c:35-42 | From the record of packets: at most one escape per packet, each in (0,1), one per packet when every loop finished with albedo >= 1. |
| SourceTransport.RunPackets | C/source/transport.c:35-63 | n_photons packets, packet k as `RunPacket` says; `completed` says every loop finished; the histogram holds the packets' escape cosines in order, at most n_photons, each in (0,1), all of them when completed with albedo >= 1; the total is the sum of the counters; the moments do not change. |
| PyHist.InitHist | Python/plane.py:38-65 | Fresh n_bins zeros, the histogram of no escapes, and theta[i] the arccos of the bin centre. |
| PyHist.EmptyHistogram | Python/plane.py:55 | The histogram of no escapes, as floats, is all zeros. |
| PyHist.BinPhoton | Python/plane.py:68-89 | One is added at index `abs(int(cos_theta * n_bins))`, which must lie inside the array, and no other entry changes. |
| PyHist.CalculateIntensity | Python/plane.py:163-184 | Elementwise `hist * n_bins / (2 n_photons cos(theta))`, one entry per bin. |
| PyHist.BinCentresPositive | Python/plane.py:60-63 | Every bin-centre cosine is positive. |
| PyHist.IntensityOfBins | Python/plane.py:184 | With the angles of `InitHist`, each entry is the intensity of its count at the bin-centre cosine; non-negative counts give non-negative intensities. |
| PyPlane.DrawnUnit | Python/plane.py:28-31 | Both sines are non-negative and complete their cosines. |
| PyPlane.EmitPhoton | Python/plane.py:13-35 | Two draws; a fresh origin position, cos theta = sqrt(xi1) in (0,1), cos phi = cos(2 pi xi2). |
| PyPlane.IsotropicDirection | Python/plane.py:92-103 | Two draws; cos theta = 2 xi1 - 1 in (-1,1), cos phi = cos(2 pi xi2). |
| PyPlane.Move | Python/plane.py:142-144 | The position array moves `length` along the direction. |
| PyPlane.Travel | Python/plane.py:141-144 | One draw: length = -log(xi) / tau_max >= 0; the coordinates move length along the direction. |
| PyPlane.Pass | Python/plane.py:139-155 | One pass from inside the slab: length = -log(xi) / tau_max and the move. Below: a fresh origin array and the emitted direction of the next two draws, with no albedo draw. Above: an escape with the direction flown, upward and unscattered. Inside: scattering exactly when the next draw is below the albedo, with the direction of the two draws after it; otherwise absorption, which needs albedo < 1, keeping the direction. |
| PyPlane.Branch | Python/plane.py:146-155 | Below: a fresh origin array and the emitted direction of the next two draws. Above: an escape with the direction kept. Inside: scattering exactly when the next draw is below the albedo, with the direction of the two draws after it; otherwise absorption, which needs albedo < 1. |
| PyPlane.TransportPhoton | Python/plane.py:137-155 | Unfinished only when the fuel is used up, inside the slab; an escape ends above z = 1 with the last unscattered upward direction, its cosine in (0,1); an absorption ends inside the slab and needs albedo < 1; only passes ending inside the slab scatter. |
| PyPlane.TransportPhotons | Python/plane.py:106-160 | n_photons photons, photon k's passes `runs[k]` with its fate; the histogram is that of their escape cosines (each the cosine of an escaped photon's last pass), which total at most n_photons, each in (0,1), and all n_photons with albedo >= 1 when every loop finished; theta holds the arc cosines of the bin centres. |
| PyPlane.TransportAndBin | Python/plane.py:136-155 | One photon extends the histogram of the earlier escapes by its own, if it escaped. |
| PyPlane.PhotonRunsBounds | Python/plane.py:146-155 | At most one escape cosine per photon, each in (0,1), one per photon when none is left in flight and albedo >= 1. |
| PyPlaneOo.PhotonPacket.constructor | Python/plane_oo.py:29-39 | A fresh packet initialised by `Init`. |
| PyPlaneOo.PhotonPacket.Init | Python/plane_oo.py:29-39 | A fresh origin position, `escaped` false, cos theta = sqrt(rand) in (0,1), cos phi = cos(2 pi rand). |
| PyPlaneOo.PhotonPacket.IsotropicScatter | Python/plane_oo.py:41-49 | cos theta = 2 rand - 1 in (-1,1), cos phi = cos(2 pi rand); position and `escaped` kept. |
| PyPlaneOo.Move | Python/plane_oo.py:73-75 | The coordinates move L along the direction. |
| PyPlaneOo.Branch | Python/plane_oo.py:82-91 | Below: `__init__`, a fresh origin array with the direction of the next two draws. Above: `escaped` set, coordinates and direction kept. Inside: scattering exactly when the next draw is below the albedo, with the two draws after it; otherwise absorption, needing albedo < 1, with the direction kept. |
| PyPlaneOo.Pass | Python/plane_oo.py:67-91 | One pass from inside the slab: L = -log(rand) / tau_max, the move along the old direction, then `Branch`. Below: `__init__` with the next two draws. Above: `escaped`, with the cosine flown, upward and unscattered. Inside: scattering exactly when the next draw is below the albedo, with the direction of the two draws after it; otherwise absorption with the direction kept. |
| PyPlaneOo.Advance | Python/plane_oo.py:72-75 | L = -log(rand) / tau_max, non-negative, and the move. |
| PyPlaneOo.TransportPhotonPacket | Python/plane_oo.py:52-93 | From inside the slab, `escaped` holds exactly when z > 1; an escape keeps the last unscattered upward direction, its cosine in (0,1); a completion inside the slab needs albedo < 1 and an unscattered last pass. |
| PyPlaneOo.RunPacket | Python/plane_oo.py:189-194 | One packet: `PhotonPacket()`, its transport, and `bin_photon` when it escaped; the histogram of the earlier escapes gains its escape cosine. Its passes start at the origin with cos theta = sqrt(first draw), number at most fuel, all of them unless the loop finished, which (albedo 1) means it escaped with a cosine in (0,1). |
| PyPlaneOo.RunMain | Python/plane_oo.py:175-205 | N_PHOTONS packets as `RunPacket` says; each intensity is that of bin i of the histogram of their escape cosines at the bin-centre cosine, and non-negative; at most N_PHOTONS escapes, each in (0,1), all of them when every loop finished. |
| PpPlane.DrawnUnit | plane_parallel/plane.py:62-66 | The sines complete their cosines and sin theta >= 0. |
| PpPlane.SampleOpticalDepth | plane_parallel/plane.py:12-33 | `L * tau_max == tau`, tau >= 0 and, for tau_max > 0, L >= 0. |
| PpPlane.EmitPhoton | plane_parallel/plane.py:36-70 | The origin, cos theta = sqrt(xi1) in (0,1), phi = 2 pi xi2 with its cosine and sine. |
| PpPlane.IsotropicScattering | plane_parallel/plane.py:73-99 | cos theta = 2 xi1 - 1 in (-1,1), phi = 2 pi xi2 with its cosine and sine, and phi returned. |
| PpPlane.Travel | plane_parallel/plane.py:128-132 | One draw: tau = -log(xi) >= 0 and L = tau / tau_max >= 0; the new position is L along the direction. |
| PpPlane.Pass | plane_parallel/plane.py:122-137 | One pass: tau = -log(first draw), L = tau / tau_max, the new position L along the direction; the next draw xi scatters exactly when xi < albedo and 0 < zt < 1, giving the direction of the two draws after xi; otherwise the direction is kept. A pass ending above was flown upward, one ending below downward. |
| PpPlane.TransportPhoton | plane_parallel/plane.py:118-137 | No re-emission: the passes chain from the origin, the first with cos theta = sqrt(first draw), scattered only strictly inside the slab. On completion zt < 0 or zt > 1 with the last unscattered direction, in (0,1) when above; the entry it records (cos theta when zt >= 1, else 0) is `RecordedCosine` of its passes. |
| PpPlane.RecordedCosineBounds | plane_parallel/plane.py:143-144 | A finished photon records a cosine in (0,1) when it left through the top and 0 when it left through the bottom. |
| PpPlane.RecordPhoton | plane_parallel/plane.py:116-145 | One photon: MU[ph] becomes the recorded cosine of its passes, and no other entry changes. |
| PpPlane.Simulate | plane_parallel/plane.py:108-145 | MU[ph] is the recorded cosine of photon ph's passes: cos theta of its last pass when that ended at zt >= 1, and 0 otherwise. `completed` says every loop finished. |
| PpPlaneOo.PhotonPacket.constructor | plane_parallel/plane_oo.py:9-20 | A fresh packet initialised by `Init`. |
| PpPlaneOo.PhotonPacket.Init | plane_parallel/plane_oo.py:9-20 | A fresh origin position, cos theta = sqrt(rand) in (0,1), phi = 2 pi rand with its cosine and sine, `_escaped` false. |
| PpPlaneOo.PhotonPacket.ScatterPacket | plane_parallel/plane_oo.py:22-32 | cos theta = 2 rand - 1, phi = 2 pi rand with its cosine and sine; position and `_escaped` kept. |
| PpPlaneOo.PhotonPacket.Advance | plane_parallel/plane_oo.py:41-45 | tau = -log(rand) >= 0, L = tau / tau_max >= 0, and the move. |
| PpPlaneOo.PhotonPacket.Settle | plane_parallel/plane_oo.py:47-58 | In order: the next draw scatters exactly when below the albedo and 0 <= z <= 1, with the direction of the two draws after it; below the slab `__init__` with the two draws after the albedo draw; above, `_escaped` set. Without scattering the direction is kept, and the coordinates unless re-initialised. |
| PpPlaneOo.PhotonPacket.Pass | plane_parallel/plane_oo.py:39-58 | One pass from inside the slab: tau = -log(rand), L = tau / tau_max, the move along the old direction. Scattering exactly when the next draw is below the albedo and the pass ends in [0,1], with the direction of the two draws after it. Below: `__init__` with the two draws after the albedo draw. Above: `_escaped`, with the cosine flown, upward. Otherwise the direction is kept. |
| PpPlaneOo.PhotonPacket.TransportPacket | plane_parallel/plane_oo.py:34-58 | No absorption: from a start at z >= 0 the packet stays at z >= 0, so completion means z > 1; from inside the slab it then ends on an unscattered upward pass with cosine in (0,1); from inside and not escaped, `_escaped` holds exactly when z > 1. |
| PpPlaneOo.BinPhotons | plane_parallel/plane_oo.py:61-99 | Fresh counts that are the histogram of the first n_photons cosines and total n_photons; angles `arccos(centre) * 180/pi`. |
| PpPlaneOo.CountCosines | plane_parallel/plane_oo.py:95-97 | From zeroed counts, the counting loop leaves the histogram of the first n_photons cosines, totalling n_photons. |
| PpPlaneOo.PhotonMoments | plane_parallel/plane_oo.py:102-127 | Entry i is count i times mu_bins over twice the histogram total times the cosine of the radian angle. |
| PpPlaneOo.MomentsAreIntensities | plane_parallel/plane_oo.py:122-125 | With the angles and histogram of `BinPhotons`, every moment is the non-negative intensity of its count at the bin-centre cosine. |
| PpPlaneOo.RunPacket | plane_parallel/plane_oo.py:146-150 | Only entry `packet` of mu and phi can change. The passes start at the origin with cos theta = sqrt(first draw); a finished packet records at mu[packet] its escape cosine, that of its last pass out through the top; an unfinished one leaves both entries as they were. |
| PpPlaneOo.RunPackets | plane_parallel/plane_oo.py:143-150 | Zeroed mu and phi, then every packet: mu[k] is the recorded cosine of packet k's passes, its escape cosine or 0; each is 0 or in (0,1), and in (0,1) when every packet finished. |
| PpPlaneOo.RecordedBounds | plane_parallel/plane_oo.py:148-150 | Every recorded cosine is 0 or in (0,1), and in (0,1) when every packet finished. |
| PpPlaneOo.Simulate | plane_parallel/plane_oo.py:136-157 | `RunPackets`, then `bin_photons`: the counts are the histogram of mu and total n_photons, and every moment is the non-negative intensity of its count at the bin-centre cosine. |
| RustMcrt.PhotonPacket.constructor | Rust/mcrt/src/main.rs:25-36 | `emit_photon()`: a packet built by `Emit`. |
| RustMcrt.PhotonPacket.Emit | Rust/mcrt/src/main.rs:25-36 | The origin, `escaped` false, cos theta = sqrt(U) in (0,1), cos phi = cos(2 pi U'), sines from the cosines. |
| RustMcrt.PhotonPacket.Scatter | Rust/mcrt/src/main.rs:38-43 | The same draws as the emission, so cos theta = sqrt(U) lies in (0,1) and the packet never turns downward; position and `escaped` kept. |
| RustMcrt.PhotonPacket.Move | Rust/mcrt/src/main.rs:45-49 | Only the position changes, by `length` along the direction. |
| RustMcrt.PhotonPacket.Pass | Rust/mcrt/src/main.rs:55-71 | One pass: tau_scat = -ln(U) > 0, dist_move = tau_max / tau_scat, and the move along the old direction, which never lowers the packet. Below: `emit_photon` at the origin from the next two draws. Above: `escaped`. Inside: scattering exactly when the next draw is below the albedo, with the direction of the two draws after it; otherwise the direction is kept. |
| RustMcrt.PhotonPacket.Advance | Rust/mcrt/src/main.rs:56-58 | tau_scat = -ln(U) > 0 and dist_move = tau_max / tau_scat > 0, so z rises. |
| RustMcrt.PhotonPacket.Branch | Rust/mcrt/src/main.rs:60-70 | Below: `emit_photon` at the origin from the next two draws, not escaped. Above: `escaped`. Inside: scattering exactly when the next draw is below the albedo, with the two draws after it. Without scattering the direction is kept, and the position unless re-emitted. |
| RustMcrt.HeightNeverFalls | Rust/mcrt/src/main.rs:55-58 | In a chain of passes none of which lowers the packet, a later pass starts no lower than an earlier one. |
| RustMcrt.TransportPacket | Rust/mcrt/src/main.rs:53-71 | Passes chain up, never fall and are never re-emitted; on completion z > 1 with `escaped` and the last unscattered direction in (0,1). |
| RustMcrt.PacketEndsSnoc | Rust/mcrt/src/main.rs:52-55 | One more packet's end keeps every earlier one, and every loop finished exactly when all earlier did and this one did. |
| RustMcrt.RunPacket | Rust/mcrt/src/main.rs:53-71 | One packet: `emit_photon` and the inner loop. Its passes start at the origin with cos theta = sqrt(first draw), chain, rise and are never re-emitted; it ends with a cosine in (0,1) at z >= 0, and when its loop finished that cosine is the escape cosine of its passes and z > 1. |
| RustMcrt.TransportPhotons | Rust/mcrt/src/main.rs:51-77 | Exactly max(n_photons, 0) packets, packet k as `RunPacket` says: a final cosine in (0,1), a height >= 0, and for a finished loop the escape cosine of its passes above the slab; `completed` says every loop finished. |
| RustMcrt.Simulate | Rust/mcrt/src/main.rs:80-97 | `transport_photons` with the constants of `main`: 1e5 packets as `RunPacket` says, every final cosine in (0,1), every packet above the slab when every loop finished. |

## Left out

- File I/O, printing, progress reports, timing and plotting: the writers, `print`/`printf`/`println!`, `timeit`, `PreciseTime` and matplotlib.
- Parameter reading (the read_par.c files, parameters.c, default_params.c): every model takes validated scalars as inputs.
- OpenMP: `start_mcrt` of C/src and C/source is modelled sequentially; the unsynchronised updates of the shared histogram and moments are concurrency and are not modelled.
- The generators themselves (GSL MT19937, `rand()`, numpy, the Rust `rand` crate): draws are an input stream. The draw 0 makes `-log(0)` infinite and is excluded for every generator.
- Floating point: IEEE rounding, infinities, NaN and the float32 coordinates of Python/plane_oo.py are not modelled; arithmetic is on reals.
- Transcendental functions are supplied, not computed, with the laws listed above.
- Memory: malloc, free and leaks are not modelled; addresses of stack locals returned by plane.c and plane_parallel_c are modelled as the values they point to.
- C `int` overflow of counters and totals is not modelled; only the Rust `i32` limit of `n_photons + 1` is, as a precondition.
- Termination: every transport loop has a fuel bound; what a packet does after its fuel runs out is not modelled.
- random_isotropic_direction, called at C/src/transport.c:160, has no body in the C/src sources; the model uses the draws of `random_theta_phi` (cos theta = 2U - 1, phi = 2 pi U').
- The Modified Random Walk is declared but never implemented, so there is nothing to model.
- The PHI array of plane_parallel/plane.py is not modelled: it records the `phi` of the last scattering, which is stale for a packet scattered earlier and undefined for one never scattered.
- The `energy_absorbed` line of plane_parallel/plane_oo.py is not modelled; nothing reads it.
- Python exceptions (an index past the end of a numpy array, `1 / 0`) are preconditions, not modelled error paths.
- RustMcrt.TransportPhotons: `n % progress` panics for progress = 0 and `n_photons + 1` overflows for n_photons = i32::MAX; both are preconditions.
- SrcTransport.StartMcrt: n_photons = 0 divides zero by zero in the average; the model requires n_photons >= 1.
- SourceTransport.StartMcrt: n_photons = 0 divides zero by zero in the average; the model requires n_photons >= 1.
- CTree.TransportPhoton: a packet started outside the slab makes the averages divide by a zero count; the model requires a start inside the slab.
- PlaneParallelC.TransportPhoton: when the uninitialised counter plus the passes is 0 the averages divide by zero and are left unspecified.
- PpPlane.Drawn: the azimuth of a direction is stated only through its cosine and sine; phi itself is not kept.
- Prototype.BinPhotons: requires every cosine to have magnitude below 1; plane.c does not check it, and the overrun the cosine 1 causes is shown under Findings.
- The `mu_bins <= MU_BINS` bound of the fixed-size histograms is a precondition of `BatchHistogram.PhotonHist.BinPhotons`, not an error path: the C code does not check it.

## Findings

| source | as written | input that shows it | evidently intended | confidence | as-written member | corrected member |
|---|---|---|---|---|---|---|
| C/calculate_intensity.c:36-37 | `random_number()` is `rand()/RAND_MAX` (C/random.c:12), which can be exactly 1. The emission then has cos theta = sqrt(1) = 1, and a packet whose first flight leaves the slab escapes with that cosine. `bin_photons` puts it at bin `abs((int)(1 * mu_bins))`, which is `bins[mu_bins]`, one past the end of the MU_BINS = 30 array. | The first draw of a packet is exactly 1, and its optical depth exceeds tau_max, so the first flight leaves the slab. | Draws strictly inside (0,1), as the later revisions' `gsl_rng_uniform_pos` gives, so every escape cosine is below 1 and every index is one of the mu_bins. | not executed | CTree.Simulate, CTree.EmissionAtUnitDraw, Bins.UnitCosineOverruns | CTree.SimulateAndBin |
| plane.c:196-197 | The prototype's `random_number()` is `rand()/RAND_MAX` (plane.c:108-111), which can be exactly 1. The emission then has cos theta = sqrt(1) = 1 (plane.c:123-125), and a packet whose first flight leaves the slab is recorded with that cosine. `bin_photons` computes `abs((int)(1 * MU_BINS))`, which is MU_BINS, and increments `bins[MU_BINS]`, one past the end of the array. | The first draw of a packet is exactly 1, and its optical depth exceeds TAU_MAX, so the first flight leaves the slab. | Draws strictly inside (0,1), so every recorded cosine is below 1 and every index is one of the MU_BINS bins. | not executed | Prototype.Simulate, Prototype.EmissionAtUnitDraw, Bins.UnitCosineOverruns | Prototype.SimulateAndBin |
