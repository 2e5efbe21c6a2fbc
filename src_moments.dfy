/** The radiation-moment estimators of the C/src revision. The slab is cut by
    n_levels + 1 levels at heights i / n_levels, i = 0 .. n_levels. Every time
    a packet's flight crosses a level the estimators of that level are
    incremented: upward crossings add 1/mu to J+, 1 to H+ and mu to K+,
    downward crossings add 1/|mu| to J-, -1 to H- and |mu| to K-. */
module SrcMoments {
  import opened Numeric

  /** One straight flight of a packet: its height before and after, and the
      direction cosine it flew with. */
  datatype Step = Step(zPre: real, zPost: real, cosTheta: real)

  /** The level indices an increment touches, as the code computes them:
      none, the inclusive range lo..hi of the upward arrays, or the inclusive
      range lo..hi of the downward arrays. */
  datatype Levels = Untouched | Upward(lo: int, hi: int) | Downward(lo: int, hi: int)

  /** The level index of a height, `(int)(z * n_levels)`. */
  function LevelOf(z: real, nLevels: nat): int
  {
    Trunc(z * nLevels as real)
  }

  /** The index range `increment_radiation_moment_estimators` loops over. */
  function LevelsCrossed(s: Step, nLevels: nat): (l: Levels)
    ensures l.Upward? ==> 0.0 < s.cosTheta
    ensures l.Downward? ==> s.cosTheta < 0.0
  {
    if s.zPre > 0.0 && s.zPost > 0.0 && LevelOf(s.zPre, nLevels) == LevelOf(s.zPost, nLevels) then Untouched
    else if s.cosTheta > 0.0 then
      Upward(if s.zPre <= 0.0 then 0 else LevelOf(s.zPre, nLevels) + 1,
             if s.zPost >= 1.0 then nLevels else LevelOf(s.zPost, nLevels))
    else if s.cosTheta < 0.0 then
      Downward(if s.zPost <= 0.0 then 0 else LevelOf(s.zPost, nLevels) + 1,
               LevelOf(s.zPre, nLevels))
    else Untouched
  }

  /** Every index the loop visits is an element of the n_levels + 1 arrays. */
  predicate InRange(l: Levels, nLevels: nat)
  {
    match l
    case Untouched => true
    case Upward(lo, hi) => lo > hi || (0 <= lo && hi <= nLevels)
    case Downward(lo, hi) => lo > hi || (0 <= lo && hi <= nLevels)
  }

  /** Level i is incremented in the upward arrays by this step. */
  predicate UpAt(s: Step, nLevels: nat, i: int)
  {
    var l := LevelsCrossed(s, nLevels);
    l.Upward? && l.lo <= i <= l.hi
  }

  /** Level i is incremented in the downward arrays by this step. */
  predicate DownAt(s: Step, nLevels: nat, i: int)
  {
    var l := LevelsCrossed(s, nLevels);
    l.Downward? && l.lo <= i <= l.hi
  }

  /** Height of level i. */
  function Height(i: int, nLevels: nat): real
    requires 1 <= nLevels
  {
    i as real / nLevels as real
  }

  /** A step that starts inside the slab never indexes outside the arrays,
      wherever it ends. */
  lemma StepInRange(s: Step, nLevels: nat)
    requires 0.0 <= s.zPre <= 1.0
    ensures InRange(LevelsCrossed(s, nLevels), nLevels)
  {
    LevelNonNegative(s.zPre, nLevels);
    LevelAtMost(s.zPre, nLevels);
    if s.zPost < 1.0 {
      LevelAtMost(s.zPost, nLevels);
    }
    if s.zPost > 0.0 {
      LevelNonNegative(s.zPost, nLevels);
    }
  }

  /** Heights at or above 0 have a level index at or above 0. */
  lemma LevelNonNegative(z: real, nLevels: nat)
    requires 0.0 <= z
    ensures 0 <= LevelOf(z, nLevels)
  {
    assert 0.0 <= z * nLevels as real;
  }

  /** Heights at or below the top have a level index at most n_levels. */
  lemma LevelAtMost(z: real, nLevels: nat)
    requires z <= 1.0
    ensures LevelOf(z, nLevels) <= nLevels
  {
    var n := nLevels as real;
    assert n - z * n == (1.0 - z) * n;
    if 0.0 <= z * n {
      TruncBelow(z * n, nLevels + 1);
    }
  }

  /** For a height in the slab, its level index is below b exactly when the
      height is below level b. */
  lemma LevelBelow(z: real, nLevels: nat, b: int)
    requires 1 <= nLevels && 0.0 <= z
    ensures LevelOf(z, nLevels) < b <==> z < Height(b, nLevels)
  {
    var n := nLevels as real;
    assert 0.0 <= z * n;
    TruncBelow(z * n, b);
    DivLe(b as real, z, n);
  }

  /** Which levels an upward flight increments: from a start height inside
      the slab to any height above it, level i is counted exactly when its
      height lies in (z_pre, z_post], and level 0 is also counted when the
      flight starts on the lower boundary. */
  lemma UpwardLevels(s: Step, nLevels: nat, i: int)
    requires 1 <= nLevels && 0 <= i <= nLevels
    requires 0.0 < s.cosTheta && 0.0 <= s.zPre <= 1.0 && s.zPre <= s.zPost
    ensures UpAt(s, nLevels, i) <==>
              (s.zPre <= 0.0 || s.zPre < Height(i, nLevels)) && Height(i, nLevels) <= s.zPost
    ensures !DownAt(s, nLevels, i)
  {
    UnitHeight(i, nLevels);
    LevelBelow(s.zPre, nLevels, i);
    LevelBelow(s.zPost, nLevels, i);
    LevelBelow(s.zPost, nLevels, i + 1);
    HeightStep(i, nLevels);
  }

  /** Which levels a downward flight increments: from a start height inside
      the slab to any height below it, level i is counted exactly when its
      height lies in (z_post, z_pre], and level 0 is also counted when the
      flight ends on or below the lower boundary. */
  lemma DownwardLevels(s: Step, nLevels: nat, i: int)
    requires 1 <= nLevels && 0 <= i <= nLevels
    requires s.cosTheta < 0.0 && 0.0 <= s.zPre <= 1.0 && s.zPost <= s.zPre
    ensures DownAt(s, nLevels, i) <==>
              (s.zPost <= 0.0 || s.zPost < Height(i, nLevels)) && Height(i, nLevels) <= s.zPre
    ensures !UpAt(s, nLevels, i)
  {
    UnitHeight(i, nLevels);
    LevelBelow(s.zPre, nLevels, i + 1);
    if s.zPost > 0.0 {
      LevelBelow(s.zPost, nLevels, i);
      LevelBelow(s.zPost, nLevels, i + 1);
      LevelBelow(s.zPre, nLevels, i);
    }
    HeightStep(i, nLevels);
  }

  /** Consecutive levels are ordered. */
  lemma HeightStep(i: int, nLevels: nat)
    requires 1 <= nLevels
    ensures Height(i, nLevels) < Height(i + 1, nLevels)
  {
    var n := nLevels as real;
    DivLe((i + 1) as real, Height(i, nLevels), n);
    assert Height(i, nLevels) * n == i as real;
  }

  /** Level heights lie in [0,1]. */
  lemma UnitHeight(i: int, nLevels: nat)
    requires 1 <= nLevels && 0 <= i <= nLevels
    ensures 0.0 <= Height(i, nLevels) <= 1.0
  {
    DivLe(i as real, 1.0, nLevels as real);
  }

  /** The six estimator arrays as values. */
  datatype Estimators = Estimators(
    jPlus: seq<real>, hPlus: seq<real>, kPlus: seq<real>,
    jMinus: seq<real>, hMinus: seq<real>, kMinus: seq<real>)

  /** All six arrays hold n_levels + 1 levels. */
  predicate WellSized(e: Estimators, nLevels: nat)
  {
    && |e.jPlus| == nLevels + 1 && |e.hPlus| == nLevels + 1 && |e.kPlus| == nLevels + 1
    && |e.jMinus| == nLevels + 1 && |e.hMinus| == nLevels + 1 && |e.kMinus| == nLevels + 1
  }

  /** Freshly initialised estimators: every level zero. */
  function Zero(nLevels: nat): (e: Estimators)
    ensures WellSized(e, nLevels)
  {
    var z := seq(nLevels + 1, _ => 0.0);
    Estimators(z, z, z, z, z, z)
  }

  /** s with d added to the elements lo..hi (inclusive). */
  function AddOver(s: seq<real>, lo: int, hi: int, d: real): (r: seq<real>)
    ensures |r| == |s|
  {
    seq(|s|, k requires 0 <= k < |s| => s[k] + (if lo <= k <= hi then d else 0.0))
  }

  /** The estimators after one call of `increment_radiation_moment_estimators`. */
  function Increment(e: Estimators, s: Step, nLevels: nat): (r: Estimators)
    ensures WellSized(e, nLevels) ==> WellSized(r, nLevels)
  {
    match LevelsCrossed(s, nLevels)
    case Untouched => e
    case Upward(lo, hi) =>
      e.(jPlus := AddOver(e.jPlus, lo, hi, 1.0 / s.cosTheta),
         hPlus := AddOver(e.hPlus, lo, hi, 1.0),
         kPlus := AddOver(e.kPlus, lo, hi, s.cosTheta))
    case Downward(lo, hi) =>
      e.(jMinus := AddOver(e.jMinus, lo, hi, 1.0 / AbsReal(s.cosTheta)),
         hMinus := AddOver(e.hMinus, lo, hi, -1.0),
         kMinus := AddOver(e.kMinus, lo, hi, AbsReal(s.cosTheta)))
  }

  /** The estimators after a whole sequence of flights, in order. */
  function Accumulate(e: Estimators, steps: seq<Step>, nLevels: nat): (r: Estimators)
    ensures WellSized(e, nLevels) ==> WellSized(r, nLevels)
  {
    if steps == [] then e
    else Increment(Accumulate(e, steps[..|steps| - 1], nLevels), steps[|steps| - 1], nLevels)
  }

  /** The three quantities an estimator counts per crossing. */
  datatype Quantity = J | H | K

  /** What one crossing with direction cosine mu contributes: 1/|mu|, 1 or |mu|. */
  function Weight(q: Quantity, mu: real): real
  {
    if mu == 0.0 then 0.0
    else match q
      case J => 1.0 / AbsReal(mu)
      case H => 1.0
      case K => AbsReal(mu)
  }

  /** Total weight of the upward crossings of level i in a sequence of flights. */
  function UpSum(steps: seq<Step>, nLevels: nat, i: int, q: Quantity): real
  {
    if steps == [] then 0.0
    else
      var s := steps[|steps| - 1];
      UpSum(steps[..|steps| - 1], nLevels, i, q) + (if UpAt(s, nLevels, i) then Weight(q, s.cosTheta) else 0.0)
  }

  /** Total weight of the downward crossings of level i in a sequence of flights. */
  function DownSum(steps: seq<Step>, nLevels: nat, i: int, q: Quantity): real
  {
    if steps == [] then 0.0
    else
      var s := steps[|steps| - 1];
      DownSum(steps[..|steps| - 1], nLevels, i, q) + (if DownAt(s, nLevels, i) then Weight(q, s.cosTheta) else 0.0)
  }

  /** Starting from zero, every estimator of level i is the total over the
      flights of its quantity: J+ sums 1/mu, H+ counts and K+ sums mu over the
      upward crossings of the level; J- and K- do the same over the downward
      crossings, and H- counts them negatively. */
  lemma {:induction false} AccumulateIsCrossingSum(steps: seq<Step>, nLevels: nat, i: nat)
    requires i <= nLevels
    ensures var e := Accumulate(Zero(nLevels), steps, nLevels);
      && e.jPlus[i] == UpSum(steps, nLevels, i, J)
      && e.hPlus[i] == UpSum(steps, nLevels, i, H)
      && e.kPlus[i] == UpSum(steps, nLevels, i, K)
      && e.jMinus[i] == DownSum(steps, nLevels, i, J)
      && e.hMinus[i] == -DownSum(steps, nLevels, i, H)
      && e.kMinus[i] == DownSum(steps, nLevels, i, K)
  {
    if steps != [] {
      AccumulateIsCrossingSum(steps[..|steps| - 1], nLevels, i);
    }
  }

  /** H+ at a level counts the upward crossings, so it never decreases and
      never exceeds the number of flights; H- is its downward mirror. */
  lemma {:induction false} CrossingCountBounds(steps: seq<Step>, nLevels: nat, i: int)
    ensures 0.0 <= UpSum(steps, nLevels, i, H) <= |steps| as real
    ensures 0.0 <= DownSum(steps, nLevels, i, H) <= |steps| as real
  {
    if steps != [] {
      CrossingCountBounds(steps[..|steps| - 1], nLevels, i);
    }
  }

  /** A flight from the lower boundary straight out of the top crosses every
      level once upward and none downward. */
  lemma FullCrossing(s: Step, nLevels: nat, i: int)
    requires 1 <= nLevels && 0 <= i <= nLevels
    requires 0.0 < s.cosTheta && s.zPre == 0.0 && 1.0 <= s.zPost
    ensures UpAt(s, nLevels, i) && !DownAt(s, nLevels, i)
  {
    UpwardLevels(s, nLevels, i);
    UnitHeight(i, nLevels);
  }

  /** With ten levels, a flight from 0.05 up to 0.15 with cosine 0.5 crosses
      level 1 only: H+ of level 1 gains 1, J+ gains 2, K+ gains 0.5, and no
      other entry changes. */
  lemma WorkedExample(e: Estimators)
    requires WellSized(e, 10)
    ensures LevelsCrossed(Step(0.05, 0.15, 0.5), 10) == Upward(1, 1)
    ensures var r := Increment(e, Step(0.05, 0.15, 0.5), 10);
      && r.jPlus == e.jPlus[1 := e.jPlus[1] + 2.0]
      && r.hPlus == e.hPlus[1 := e.hPlus[1] + 1.0]
      && r.kPlus == e.kPlus[1 := e.kPlus[1] + 0.5]
      && r.jMinus == e.jMinus && r.hMinus == e.hMinus && r.kMinus == e.kMinus
  {
    TruncIsFloor(0.05 * 10.0, 0);
    TruncIsFloor(0.15 * 10.0, 1);
    var r := Increment(e, Step(0.05, 0.15, 0.5), 10);
    assert r.jPlus == e.jPlus[1 := e.jPlus[1] + 2.0];
    assert r.hPlus == e.hPlus[1 := e.hPlus[1] + 1.0];
    assert r.kPlus == e.kPlus[1 := e.kPlus[1] + 0.5];
  }

  /** `Moments_t`: n_levels and the six arrays of n_levels + 1 doubles. */
  class Moments {
    const nLevels: nat
    const jPlus: array<real>
    const hPlus: array<real>
    const kPlus: array<real>
    const jMinus: array<real>
    const hMinus: array<real>
    const kMinus: array<real>

    /** The six arrays have n_levels + 1 elements each and are distinct. */
    ghost predicate Valid()
      reads this
    {
      && jPlus.Length == nLevels + 1 && hPlus.Length == nLevels + 1 && kPlus.Length == nLevels + 1
      && jMinus.Length == nLevels + 1 && hMinus.Length == nLevels + 1 && kMinus.Length == nLevels + 1
      && jPlus != hPlus && jPlus != kPlus && jPlus != jMinus && jPlus != hMinus && jPlus != kMinus
      && hPlus != kPlus && hPlus != jMinus && hPlus != hMinus && hPlus != kMinus
      && kPlus != jMinus && kPlus != hMinus && kPlus != kMinus
      && jMinus != hMinus && jMinus != kMinus
      && hMinus != kMinus
    }

    /** The six arrays, the memory the increments write. */
    ghost function Repr(): set<object>
      reads this
    {
      {jPlus, hPlus, kPlus, jMinus, hMinus, kMinus}
    }

    /** The contents of the six arrays. */
    function State(): Estimators
      reads this, jPlus, hPlus, kPlus, jMinus, hMinus, kMinus
    {
      Estimators(jPlus[..], hPlus[..], kPlus[..], jMinus[..], hMinus[..], kMinus[..])
    }

    /** `init_moments`: six zeroed (calloc'd) arrays of n_levels + 1 elements. */
    constructor (nLevels: nat)
      ensures Valid() && this.nLevels == nLevels
      ensures State() == Zero(nLevels)
      ensures fresh(jPlus) && fresh(hPlus) && fresh(kPlus)
      ensures fresh(jMinus) && fresh(hMinus) && fresh(kMinus)
    {
      this.nLevels := nLevels;
      jPlus := new real[nLevels + 1](_ => 0.0);
      hPlus := new real[nLevels + 1](_ => 0.0);
      kPlus := new real[nLevels + 1](_ => 0.0);
      jMinus := new real[nLevels + 1](_ => 0.0);
      hMinus := new real[nLevels + 1](_ => 0.0);
      kMinus := new real[nLevels + 1](_ => 0.0);
    }

    /** `increment_radiation_moment_estimators(moments, z_pre, z_post, costheta)`. */
    method IncrementRadiationMomentEstimators(zPre: real, zPost: real, cosTheta: real)
      requires Valid()
      requires InRange(LevelsCrossed(Step(zPre, zPost, cosTheta), nLevels), nLevels)
      modifies jPlus, hPlus, kPlus, jMinus, hMinus, kMinus
      ensures State() == Increment(old(State()), Step(zPre, zPost, cosTheta), nLevels)
    {
      if zPre > 0.0 && zPost > 0.0 && LevelOf(zPre, nLevels) == LevelOf(zPost, nLevels) {
        return;
      }
      if cosTheta > 0.0 {
        var pre := if zPre <= 0.0 then 0 else LevelOf(zPre, nLevels) + 1;
        var post := if zPost >= 1.0 then nLevels else LevelOf(zPost, nLevels);
        AddOverLevels(jPlus, hPlus, kPlus, pre, post, 1.0 / cosTheta, 1.0, cosTheta);
      } else if cosTheta < 0.0 {
        var pre := LevelOf(zPre, nLevels);
        var post := if zPost <= 0.0 then 0 else LevelOf(zPost, nLevels) + 1;
        AddOverLevels(jMinus, hMinus, kMinus, post, pre, 1.0 / AbsReal(cosTheta), -1.0, AbsReal(cosTheta));
      }
    }
  }

  /** One of the two loops of `increment_radiation_moment_estimators`: for
      every level i from lo to hi, add da to a[i], db to b[i] and dc to c[i]. */
  method AddOverLevels(a: array<real>, b: array<real>, c: array<real>,
                       lo: int, hi: int, da: real, db: real, dc: real)
    requires a != b && a != c && b != c
    requires lo > hi || (0 <= lo && hi < a.Length && hi < b.Length && hi < c.Length)
    modifies a, b, c
    ensures a[..] == AddOver(old(a[..]), lo, hi, da)
    ensures b[..] == AddOver(old(b[..]), lo, hi, db)
    ensures c[..] == AddOver(old(c[..]), lo, hi, dc)
  {
    var i := lo;
    while i <= hi
      invariant if lo <= hi then lo <= i <= hi + 1 else i == lo
      invariant forall k :: 0 <= k < a.Length ==> a[k] == old(a[k]) + (if lo <= k < i then da else 0.0)
      invariant forall k :: 0 <= k < b.Length ==> b[k] == old(b[k]) + (if lo <= k < i then db else 0.0)
      invariant forall k :: 0 <= k < c.Length ==> c[k] == old(c[k]) + (if lo <= k < i then dc else 0.0)
    {
      a[i] := a[i] + da;
      b[i] := b[i] + db;
      c[i] := c[i] + dc;
      i := i + 1;
    }
    assert a[..] == AddOver(old(a[..]), lo, hi, da);
    assert b[..] == AddOver(old(b[..]), lo, hi, db);
    assert c[..] == AddOver(old(c[..]), lo, hi, dc);
  }
}
