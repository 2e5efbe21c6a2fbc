/** The random number source. Every revision draws uniform numbers from one
    generator (GSL MT19937 through `gsl_rand_num`, `rand()/RAND_MAX`,
    `np.random.rand()`, Rust's `thread_rng`). The model takes the whole stream
    the generator would produce as an input and keeps the generator's position
    as mutable state, so the order in which each revision consumes draws is
    part of the model. */
module Random {

  class Rng {
    /** The uniform numbers the generator yields, in order. */
    const draws: nat -> real
    /** How many numbers have been drawn so far. */
    var pos: nat

    constructor (draws: nat -> real)
      ensures this.draws == draws && pos == 0
    {
      this.draws := draws;
      pos := 0;
    }

    /** One call of the generator: `gsl_rand_num(0, 1)`, `random_number()`,
        `np.random.rand()` or `random_number()` in Rust. */
    method Uniform() returns (u: real)
      modifies this
      ensures pos == old(pos) + 1
      ensures u == draws(old(pos))
    {
      u := draws(pos);
      pos := pos + 1;
    }
  }

  /** Every draw lies strictly inside (0,1): `gsl_rng_uniform_pos`. For numpy
      and Rust, whose range is [0,1), the draw 0 (which makes `-log(0)`
      infinite) is excluded as well. */
  ghost predicate OpenUnit(rng: Rng)
  {
    forall i: nat :: 0.0 < rng.draws(i) < 1.0
  }

  /** Every draw lies in (0,1]: `rand()/RAND_MAX` can reach 1; the draw 0
      (an infinite free path) is excluded. */
  ghost predicate HalfOpenUnit(rng: Rng)
  {
    forall i: nat :: 0.0 < rng.draws(i) <= 1.0
  }
}
