/**
 * lab_normalization and compute_lab_distance (main.py:54-66) as they evaluate
 * under NumPy 2.0 and later. The channels of an OpenCV 8-bit Lab pixel are
 * NumPy uint8 scalars, and NumPy 2 (the promotion rules of NEP 50) keeps uint8
 * when one is combined with a Python int or with another uint8: L * 100,
 * a - 128, b - 128, the differences of the a and b components and their
 * squares are all reduced modulo 256. Only the division of L by 256 and the
 * sums with the L term are floating point. Under NumPy 1.x a uint8 scalar
 * combined with a Python int becomes int64, nothing wraps, and the signed
 * arithmetic of LabColour is the program as written.
 *
 * The rest of the model uses the signed arithmetic of LabColour; this module
 * shows what the reduction modulo 256 does to it.
 */
module AsWritten {
  import opened LabColour
  import opened Palette

  /** uint8 arithmetic: the exact result reduced modulo 256. */
  function Wrap(v: int): Byte
  {
    v % 256
  }

  /**
   * A normalised triple as main.py computes it: L * 100 / 256 as a float,
   * held in units of 1/256, and a - 128 and b - 128 as uint8 values.
   */
  datatype WrappedNorm = WrappedNorm(l: int, a: Byte, b: Byte)

  /** lab_normalization on uint8 channels. */
  function WrappedNormalize(c: Lab): WrappedNorm
  {
    WrappedNorm(Wrap(100 * c.l), Wrap(c.a - 128), Wrap(c.b - 128))
  }

  /**
   * compute_lab_distance without the square root, in units of 1/65536: the L
   * difference is squared exactly, the a and b differences and their squares
   * are reduced modulo 256.
   */
  function WrappedSqDist(x: WrappedNorm, y: WrappedNorm): (d: nat)
    ensures x == y ==> d == 0
  {
    Square(x.l - y.l) + 65536 * (Wrap(Square(Wrap(x.a - y.a))) + Wrap(Square(Wrap(x.b - y.b))))
  }

  /** The distance from an entry to the query, the entry's colour normalised the same way. */
  function WrappedDist(e: Entry, q: WrappedNorm): nat
  {
    WrappedSqDist(WrappedNormalize(e.lab), q)
  }

  /** The index find_closest_colour returns under this arithmetic, scanned as Nearest.NearestIndex scans. */
  function WrappedNearestIndex(p: seq<Entry>, q: WrappedNorm): (k: nat)
    requires |p| > 0
    ensures k < |p|
    decreases |p|
  {
    if |p| == 1 then 0
    else
      var k := WrappedNearestIndex(p[..|p| - 1], q);
      if WrappedDist(p[|p| - 1], q) < WrappedDist(p[k], q) then |p| - 1 else k
  }

  /** The two colours of the example below, normalised with uint8 arithmetic. */
  lemma WrappedExampleColours()
    ensures WrappedNormalize(Lab(50, 128, 128)) == WrappedNorm(136, 0, 0)
    ensures WrappedNormalize(Lab(50, 144, 128)) == WrappedNorm(136, 16, 0)
  {
  }

  /** Their a components differ by 16, and 16 * 16 = 256 wraps to 0. */
  lemma WrappedExampleDistance()
    ensures WrappedSqDist(WrappedNorm(136, 16, 0), WrappedNorm(136, 0, 0)) == 0
  {
    assert Wrap(Square(16)) == 0;
  }

  /** As written, an entry at distance 0 that comes first in the palette is always the one chosen. */
  lemma {:induction false} FirstAtZeroIsChosen(p: seq<Entry>, q: WrappedNorm)
    requires |p| > 0 && WrappedDist(p[0], q) == 0
    ensures WrappedNearestIndex(p, q) == 0
    decreases |p|
  {
    if |p| > 1 {
      var init := p[..|p| - 1];
      assert init[0] == p[0];
      FirstAtZeroIsChosen(init, q);
    }
  }

  /** As written, an entry of colour (50, 144, 128) is at distance 0 from the normalised pixel (50, 128, 128). */
  lemma WrappedExampleEntry(e: Entry)
    requires e.lab == Lab(50, 144, 128)
    ensures WrappedDist(e, WrappedNorm(136, 0, 0)) == 0
  {
    WrappedExampleColours();
    WrappedExampleDistance();
  }

  /**
   * With the arithmetic as written, a pixel of colour (50, 128, 128) is given
   * the colour of a first palette entry (50, 144, 128), whatever follows it in
   * the palette, even an entry of the pixel's own colour: the a components
   * differ by 16, and 16 * 16 = 256 wraps to 0. Nearest.PaletteColourIsFixed
   * proves that the intended arithmetic keeps the colour of such a pixel.
   */
  lemma WrapRecoloursPaletteColour(p: seq<Entry>, px: Lab)
    requires |p| > 0 && p[0].lab == Lab(50, 144, 128) && px == Lab(50, 128, 128)
    ensures WrappedNearestIndex(p, WrappedNormalize(px)) == 0
    ensures p[0].lab != px
  {
    WrappedExampleColours();
    WrappedExampleEntry(p[0]);
    FirstAtZeroIsChosen(p, WrappedNormalize(px));
  }
}
