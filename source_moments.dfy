/** The radiation-moment estimators of the earlier C/source revision
    (C/source/moments.c). The arrays have n_levels elements, not
    n_levels + 1; `calculate_moments` receives the packet after its flight
    and the height before it, and its upward loop cannot run. */
module SourceMoments {
  import opened Numeric
  import opened SrcMoments

  /** The six arrays, each of n_levels elements. */
  predicate SourceSized(e: Estimators, nLevels: nat)
  {
    && |e.jPlus| == nLevels && |e.hPlus| == nLevels && |e.kPlus| == nLevels
    && |e.jMinus| == nLevels && |e.hMinus| == nLevels && |e.kMinus| == nLevels
  }

  /** The estimators `init_jhk` leaves: n_levels zeros in each array. */
  function SourceZero(nLevels: nat): (e: Estimators)
    ensures SourceSized(e, nLevels)
  {
    var z := seq(nLevels, _ => 0.0);
    Estimators(z, z, z, z, z, z)
  }

  /** The same-level test of `calculate_moments`: both heights above zero
      and `(int)(z1*n) == (int)(z2*n)`. */
  predicate SameLevel(z1: real, z2: real, nLevels: nat)
  {
    z1 > 0.0 && z2 > 0.0 && LevelOf(z1, nLevels) == LevelOf(z2, nLevels)
  }

  /** `level1` of the downward branch: `(int)(z1*n) + 1`. */
  function DownLevel1(z1: real, nLevels: nat): int
  {
    LevelOf(z1, nLevels) + 1
  }

  /** `level2` of the downward branch: 1 when z2 < 0, else `(int)(z2*n) + 2`. */
  function DownLevel2(z2: real, nLevels: nat): int
  {
    if z2 < 0.0 then 1 else LevelOf(z2, nLevels) + 2
  }

  /** When the downward loop `level2 <= i < level1` runs, every index it
      visits is one of the n_levels elements. */
  predicate SourceInRange(z1: real, z2: real, mu: real, nLevels: nat)
  {
    var lo, hi := DownLevel2(z2, nLevels), DownLevel1(z1, nLevels) - 1;
    SameLevel(z1, z2, nLevels) || 0.0 <= mu || lo > hi || (0 <= lo && hi < nLevels)
  }

  /** The estimators after `calculate_moments(packet, moments, z2)` with the
      packet at height z1 and direction cosine mu. The upward loop runs from
      level1 to below level1, so only the downward branch can change
      anything. */
  function SourceIncrement(e: Estimators, z1: real, z2: real, mu: real, nLevels: nat): (r: Estimators)
    ensures SourceSized(e, nLevels) ==> SourceSized(r, nLevels)
    ensures 0.0 <= mu ==> r == e
    ensures r.jPlus == e.jPlus && r.hPlus == e.hPlus && r.kPlus == e.kPlus
  {
    if SameLevel(z1, z2, nLevels) then e
    else if mu < 0.0 then
      var lo, hi := DownLevel2(z2, nLevels), DownLevel1(z1, nLevels) - 1;
      e.(jMinus := AddOver(e.jMinus, lo, hi, 1.0 / AbsReal(mu)),
         hMinus := AddOver(e.hMinus, lo, hi, -1.0),
         kMinus := AddOver(e.kMinus, lo, hi, AbsReal(mu)))
    else e
  }

  /** Adding over an empty range changes nothing. */
  lemma AddOverEmpty(s: seq<real>, lo: int, hi: int, d: real)
    requires hi < lo
    ensures AddOver(s, lo, hi, d) == s
  {
  }

  /** Scaling by n_levels keeps the order of two heights. */
  lemma LevelMonotone(z1: real, z2: real, nLevels: nat)
    requires z1 <= z2
    ensures LevelOf(z1, nLevels) <= LevelOf(z2, nLevels)
  {
    var n := nLevels as real;
    ScaleMonotone(z1, z2, n);
    TruncMonotone(z1 * n, z2 * n);
  }

  /** A downward flight from a height at or above zero (z1 <= z2, 0 <= z2)
      leaves level2 above level1: the downward loop is empty too. */
  lemma DownwardFlightEmpty(z1: real, z2: real, nLevels: nat)
    requires z1 <= z2 && 0.0 <= z2
    ensures DownLevel1(z1, nLevels) - 1 < DownLevel2(z2, nLevels)
  {
    LevelMonotone(z1, z2, nLevels);
  }

  /** Under the calls its transport loop makes (the pre-flight height inside
      the slab, the packet moved along its direction), `calculate_moments`
      never changes any estimator and never indexes outside the arrays. */
  lemma InSlabFlightChangesNothing(e: Estimators, s: Step, nLevels: nat)
    requires 0.0 <= s.zPre && (s.cosTheta < 0.0 ==> s.zPost < s.zPre)
    ensures SourceInRange(s.zPost, s.zPre, s.cosTheta, nLevels)
    ensures SourceIncrement(e, s.zPost, s.zPre, s.cosTheta, nLevels) == e
  {
    if s.cosTheta < 0.0 {
      DownwardFlightEmpty(s.zPost, s.zPre, nLevels);
      var lo, hi := DownLevel2(s.zPre, nLevels), DownLevel1(s.zPost, nLevels) - 1;
      AddOverEmpty(e.jMinus, lo, hi, 1.0 / AbsReal(s.cosTheta));
      AddOverEmpty(e.hMinus, lo, hi, -1.0);
      AddOverEmpty(e.kMinus, lo, hi, AbsReal(s.cosTheta));
    }
  }

  /** The moments struct of this revision: six arrays of n_levels doubles. */
  class JhkMoments {
    const nLevels: nat
    const jPlus: array<real>
    const hPlus: array<real>
    const kPlus: array<real>
    const jMinus: array<real>
    const hMinus: array<real>
    const kMinus: array<real>

    /** The six arrays have n_levels elements each and are distinct. */
    ghost predicate Valid()
      reads this
    {
      && jPlus.Length == nLevels && hPlus.Length == nLevels && kPlus.Length == nLevels
      && jMinus.Length == nLevels && hMinus.Length == nLevels && kMinus.Length == nLevels
      && jPlus != hPlus && jPlus != kPlus && jPlus != jMinus && jPlus != hMinus && jPlus != kMinus
      && hPlus != kPlus && hPlus != jMinus && hPlus != hMinus && hPlus != kMinus
      && kPlus != jMinus && kPlus != hMinus && kPlus != kMinus
      && jMinus != hMinus && jMinus != kMinus
      && hMinus != kMinus
    }

    /** The six arrays, the memory the increments write. */
    ghost function Repr(): set<object>
      reads this
    {
      {jPlus, hPlus, kPlus, jMinus, hMinus, kMinus}
    }

    /** The contents of the six arrays. */
    function State(): Estimators
      reads this, jPlus, hPlus, kPlus, jMinus, hMinus, kMinus
    {
      Estimators(jPlus[..], hPlus[..], kPlus[..], jMinus[..], hMinus[..], kMinus[..])
    }

    /** `init_jhk(moments)`: six arrays of n_levels elements (malloc'd), then
        a loop setting every element to zero. */
    constructor InitJhk(nLevels: nat)
      ensures Valid() && this.nLevels == nLevels
      ensures State() == SourceZero(nLevels)
      ensures fresh(Repr())
    {
      this.nLevels := nLevels;
      jPlus := new real[nLevels];
      hPlus := new real[nLevels];
      kPlus := new real[nLevels];
      jMinus := new real[nLevels];
      hMinus := new real[nLevels];
      kMinus := new real[nLevels];
      new;
      assert Valid() && fresh(Repr());
      for i := 0 to nLevels
        invariant Valid()
        invariant forall k :: 0 <= k < i ==> jPlus[k] == 0.0
        invariant forall k :: 0 <= k < i ==> hPlus[k] == 0.0
        invariant forall k :: 0 <= k < i ==> kPlus[k] == 0.0
        invariant forall k :: 0 <= k < i ==> jMinus[k] == 0.0
        invariant forall k :: 0 <= k < i ==> hMinus[k] == 0.0
        invariant forall k :: 0 <= k < i ==> kMinus[k] == 0.0
      {
        jPlus[i] := 0.0;
        hPlus[i] := 0.0;
        kPlus[i] := 0.0;
        jMinus[i] := 0.0;
        hMinus[i] := 0.0;
        kMinus[i] := 0.0;
      }
      ghost var z := seq(nLevels, _ => 0.0);
      assert jPlus[..] == z && hPlus[..] == z && kPlus[..] == z;
      assert jMinus[..] == z && hMinus[..] == z && kMinus[..] == z;
    }

    /** `calculate_moments(packet, moments, z2)` with the packet at height z1
        and direction cosine mu: the same-level return, then the upward loop
        `for (i = level1; i < level1; i++)`, which never runs, or the
        downward loop `for (i = level2; i < level1; i++)`. */
    method CalculateMoments(z1: real, z2: real, mu: real)
      requires Valid() && SourceInRange(z1, z2, mu, nLevels)
      modifies Repr()
      ensures State() == SourceIncrement(old(State()), z1, z2, mu, nLevels)
    {
      if SameLevel(z1, z2, nLevels) {
        return;
      }
      if mu > 0.0 {
        var level1 := if z1 < 0.0 then 1 else LevelOf(z1, nLevels) + 2;
        AddOverLevels(jPlus, hPlus, kPlus, level1, level1 - 1, 1.0 / mu, 1.0, mu);
        assert State() == old(State());
      } else if mu < 0.0 {
        var level1 := DownLevel1(z1, nLevels);
        var level2 := DownLevel2(z2, nLevels);
        AddOverLevels(jMinus, hMinus, kMinus, level2, level1 - 1, 1.0 / AbsReal(mu), -1.0, AbsReal(mu));
      }
    }
  }
}
