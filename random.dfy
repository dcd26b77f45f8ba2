/** Python's `random` module as an explicit oracle.

    After a `random.seed(...)` the generator yields a fixed stream of raw
    draws; the model names that stream `Oracle` and lets the k-th random call
    after seeding read entry k. Every call of `random.random`,
    `random.randint`, `random.choice` or `random.uniform` consumes exactly one
    entry, as it does one call of the underlying generator per value in the
    model. */
module Rand {

  /** The raw draws that follow one seeding of the generator. */
  type Oracle = nat -> nat

  /** `random.random()` yields k / 2**53 for a 53-bit integer k. */
  const Denominator: nat := 0x20_0000_0000_0000

  /** `random.random()` read at position k: a float in [0, 1). */
  function RandomAt(o: Oracle, k: nat): (r: real)
    ensures 0.0 <= r < 1.0
  {
    (o(k) % Denominator) as real / Denominator as real
  }

  /** An integer draw below n, as `random.choice` and `random.randint` use it. */
  function BelowAt(o: Oracle, k: nat, n: nat): (r: nat)
    requires n > 0
    ensures r < n
  {
    o(k) % n
  }

  /** `random.randint(a, b)`: an integer in the closed range [a, b]. */
  function RandIntAt(o: Oracle, k: nat, a: int, b: int): (r: int)
    requires a <= b
    ensures a <= r <= b
  {
    a + BelowAt(o, k, b - a + 1)
  }

  /** `random.choice(s)` on a non-empty list (an empty one raises IndexError at
      every call site, which models that case itself). */
  function ChoiceAt<T>(o: Oracle, k: nat, s: seq<T>): (r: T)
    requires |s| > 0
    ensures r in s
  {
    s[BelowAt(o, k, |s|)]
  }

  /** `random.uniform(a, b)` is `a + (b - a) * random()`; it lies between the
      two bounds whichever of them is the larger. */
  function UniformAt(o: Oracle, k: nat, a: real, b: real): (r: real)
    ensures a <= b ==> a <= r <= b
    ensures b <= a ==> b <= r <= a
  {
    var span := b - a;
    var u := RandomAt(o, k);
    ScaledUnit(span, u);
    a + span * u
  }

  lemma ScaledUnit(d: real, u: real)
    requires 0.0 <= u < 1.0
    ensures d >= 0.0 ==> 0.0 <= d * u <= d
    ensures d <= 0.0 ==> d <= d * u <= 0.0
  {
    if d >= 0.0 {
      assert d * u <= d * 1.0;
    } else {
      assert (-d) * u <= (-d) * 1.0;
    }
  }
}
