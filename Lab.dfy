/**
 * Lab colours as OpenCV stores them in an 8-bit image, their normalised form,
 * and the distance used to compare them (main.py:54-66).
 *
 * A normalised component is L * 100 / 256, a - 128 or b - 128. Every such value
 * is a whole number of 1/256ths, so a normalised triple is held exactly as
 * integers counted in units of 1/256. Multiplying every coordinate by the same
 * positive factor multiplies every squared distance by 256 * 256 and leaves
 * every comparison between distances as it was.
 */
module LabColour {

  /** One 8-bit channel value. */
  type Byte = x: int | 0 <= x < 256

  /** An 8-bit Lab pixel: L scaled to 0..255, a and b offset by 128. */
  datatype Lab = Lab(l: Byte, a: Byte, b: Byte)

  /** A normalised Lab triple, each component counted in units of 1/256. */
  datatype Norm = Norm(l: int, a: int, b: int)

  /** The value a normalised triple stands for, as three reals. */
  function Value(n: Norm): (real, real, real)
  {
    (n.l as real / 256.0, n.a as real / 256.0, n.b as real / 256.0)
  }

  /**
   * lab_normalization: L * 100 / 256, a - 128, b - 128. The result of an 8-bit
   * pixel lies in [0, 99.609375] x [-128, 127] x [-128, 127].
   */
  function Normalize(c: Lab): (n: Norm)
    ensures Value(n) == (c.l as real * 100.0 / 256.0, (c.a - 128) as real, (c.b - 128) as real)
    ensures 0 <= n.l <= 25500 && -32768 <= n.a <= 32512 && -32768 <= n.b <= 32512
  {
    Norm(100 * c.l, 256 * (c.a - 128), 256 * (c.b - 128))
  }

  /** Distinct pixels have distinct normalised forms. */
  lemma NormalizeInjective(x: Lab, y: Lab)
    requires Normalize(x) == Normalize(y)
    ensures x == y
  {
  }

  /** The square of an integer: never negative, and zero only at zero. */
  function Square(v: int): (r: nat)
    ensures v != 0 ==> r > 0
  {
    v * v
  }

  /**
   * compute_lab_distance without the final square root: the sum of the squared
   * component differences. The square root is strictly monotone on the
   * non-negative reals, so a comparison of two distances has the same outcome
   * as the comparison of their squares.
   */
  function SqDist(x: Norm, y: Norm): (d: nat)
  {
    Square(x.l - y.l) + Square(x.a - y.a) + Square(x.b - y.b)
  }

  /** The distance is zero exactly on equal triples. */
  lemma SqDistZeroIff(x: Norm, y: Norm)
    ensures SqDist(x, y) == 0 <==> x == y
  {
  }

  /** The distance does not depend on the order of its arguments. */
  lemma SqDistSymmetric(x: Norm, y: Norm)
    ensures SqDist(x, y) == SqDist(y, x)
  {
  }
}
