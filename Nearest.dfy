/**
 * Which palette entry find_closest_colour picks (main.py:68-79): the first
 * entry, in palette order, at the least distance from the normalised query.
 */
module Nearest {
  import opened LabColour
  import opened Palette

  /** Distance from entry e's normalised colour to the query q, in the argument order of the source. */
  function Dist(e: Entry, q: Norm): nat
  {
    SqDist(e.labNorm, q)
  }

  /**
   * k is the first index of p at minimum distance to q: no entry is closer,
   * and every entry before it is strictly farther.
   */
  ghost predicate IsFirstNearest(p: seq<Entry>, q: Norm, k: int)
  {
    && 0 <= k < |p|
    && (forall j :: 0 <= j < |p| ==> Dist(p[k], q) <= Dist(p[j], q))
    && (forall j :: 0 <= j < k ==> Dist(p[k], q) < Dist(p[j], q))
  }

  /**
   * The index find_closest_colour returns, defined over ever longer prefixes of
   * the palette: the last entry takes over only when strictly closer than the
   * choice for the entries before it.
   */
  function NearestIndex(p: seq<Entry>, q: Norm): (k: nat)
    requires |p| > 0
    ensures k < |p|
    decreases |p|
  {
    if |p| == 1 then 0
    else
      var k := NearestIndex(p[..|p| - 1], q);
      if Dist(p[|p| - 1], q) < Dist(p[k], q) then |p| - 1 else k
  }

  /** NearestIndex is the first index at minimum distance. */
  lemma {:induction false} NearestIndexIsFirstNearest(p: seq<Entry>, q: Norm)
    requires |p| > 0
    ensures IsFirstNearest(p, q, NearestIndex(p, q))
    decreases |p|
  {
    if |p| > 1 {
      var init := p[..|p| - 1];
      NearestIndexIsFirstNearest(init, q);
      assert forall j :: 0 <= j < |init| ==> init[j] == p[j];
    }
  }

  /** The first nearest index is unique, so every search with that outcome agrees with NearestIndex. */
  lemma FirstNearestUnique(p: seq<Entry>, q: Norm, k1: int, k2: int)
    requires IsFirstNearest(p, q, k1) && IsFirstNearest(p, q, k2)
    ensures k1 == k2
  {
    assert Dist(p[k1], q) == Dist(p[k2], q);
  }

  /** The entry a pixel resolves to: the first nearest entry to its normalised colour. */
  function Resolve(p: seq<Entry>, px: Lab): (e: Entry)
    requires |p| > 0
  {
    p[NearestIndex(p, Normalize(px))]
  }

  /**
   * A pixel that already has the Lab colour of some entry of a well-formed
   * palette resolves to an entry with that same colour (perhaps an earlier
   * entry of equal colour).
   */
  lemma PaletteColourIsFixed(p: seq<Entry>, k: nat)
    requires WellFormed(p) && k < |p|
    ensures Resolve(p, p[k].lab).lab == p[k].lab
  {
    var q := Normalize(p[k].lab);
    var m := NearestIndex(p, q);
    NearestIndexIsFirstNearest(p, q);
    SqDistZeroIff(p[k].labNorm, q);
    assert Dist(p[m], q) == 0;
    SqDistZeroIff(p[m].labNorm, q);
    NormalizeInjective(p[m].lab, p[k].lab);
  }

  /**
   * Ties go to the earlier entry: of two entries at equal distance from the
   * query, the later one is never chosen.
   */
  lemma TieGoesToEarlier(p: seq<Entry>, q: Norm, i: nat, j: nat)
    requires i < j < |p| && Dist(p[i], q) == Dist(p[j], q)
    ensures NearestIndex(p, q) != j
  {
    NearestIndexIsFirstNearest(p, q);
  }
}
