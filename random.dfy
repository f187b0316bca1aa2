// The random source every pass draws from. The C++ code calls rand() (and
// randomFloat() = rand()/RAND_MAX); the JavaScript mirror calls Math.random().
// Neither generator is modelled: the source is injected as a stream of draws,
// and a position counts how many draws have been consumed so far, so the
// order in which the code consumes random numbers is part of the model.
module Random {

  /** RAND_MAX of the Emscripten C library. */
  const RAND_MAX: int := 2147483647

  /** A value rand() may return. */
  type Rand = r: int | 0 <= r <= RAND_MAX

  /** A value Math.random() may return. */
  type Unit = u: real | 0.0 <= u < 1.0

  /** The injected generator: the i-th value it returns, for every i. */
  datatype Source =
    | CRand(ints: nat -> Rand)
    | MathRandom(reals: nat -> Unit)

  /** A value computed from the source, and the position of the next unused draw. */
  datatype Drawn<T> = Drawn(value: T, next: nat)

  /** randomFloat() (rand()/RAND_MAX) or Math.random(), drawn at position pos. */
  function Uniform(src: Source, pos: nat): (u: real)
    ensures 0.0 <= u <= 1.0
    ensures src.MathRandom? ==> u < 1.0
  {
    match src
    case CRand(ints) => ints(pos) as real / RAND_MAX as real
    case MathRandom(reals) => reals(pos)
  }

  /** rand() % n, or Math.floor(Math.random() * n), drawn at position pos. */
  function Below(src: Source, pos: nat, n: int): (k: int)
    requires n > 0
    ensures 0 <= k < n
  {
    match src
    case CRand(ints) => ints(pos) % n
    case MathRandom(reals) => FloorBelow(reals(pos), n)
  }

  /** Math.floor(u * n) for u in [0, 1). */
  function FloorBelow(u: Unit, n: int): (k: int)
    requires n > 0
    ensures 0 <= k < n
    ensures k as real <= u * n as real < k as real + 1.0
  {
    ProductBelow(u, n);
    (u * n as real).Floor
  }

  lemma ProductBelow(u: Unit, n: int)
    requires n > 0
    ensures 0.0 <= u * n as real < n as real
  {
    assert u * n as real <= u * n as real;
    assert (1.0 - u) * n as real > 0.0;
  }

  /** A draw of randomFloat() never exceeds 1, so a probability of 1.0 always passes. */
  lemma FullProbabilityAlwaysPasses(src: Source, pos: nat, probability: real)
    requires probability >= 1.0
    ensures !(Uniform(src, pos) > probability)
  {
  }
}
