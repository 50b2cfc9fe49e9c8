/**
 * The size arithmetic of update_rendering_work (main.py:113-141): from the
 * requested output width and the image's aspect ratio to a grid of LEGO units.
 * Lengths are in millimetres unless a name says centimetres.
 */
module Planner {

  /** lego_unit_size: the side of one unit, in millimetres (main.py:12). */
  const LegoUnitSize: nat := 8

  /** Widths below this many millimetres are ignored. */
  const MinimumWidth: real := 40.0

  /** Python's int() of a float: truncation toward zero. */
  function Trunc(x: real): (n: int)
    ensures x >= 0.0 ==> n as real <= x < n as real + 1.0
    ensures x < 0.0 ==> n as real - 1.0 < x <= n as real
  {
    if x >= 0.0 then x.Floor else -((-x).Floor)
  }

  /** The unit side: doubled when the minimum-dimension setting reads 4. */
  function UnitSize(minDim: int): nat
  {
    if minDim == 4 then LegoUnitSize * 2 else LegoUnitSize
  }

  /** What update_rendering_work computes and displays once a width is accepted. */
  datatype GridPlan = GridPlan(unitSize: nat, countWidth: int, countHeight: int, totalPieces: int,
                               outputWidthCm: real, outputHeightCm: real)

  /**
   * The plan for an output width of widthMm with the given aspect ratio: the
   * unit counts are the truncated quotients of the output sides by the unit,
   * and the displayed sizes are the counts times the unit, in centimetres.
   */
  function PlanGrid(widthMm: real, minDim: int, aspect: real): (g: GridPlan)
    requires aspect != 0.0
    ensures g.unitSize == 16 <==> minDim == 4
    ensures g.unitSize == 8 <==> minDim != 4
    ensures widthMm >= 0.0 ==>
      g.countWidth >= 0 &&
      g.countWidth as real <= widthMm / g.unitSize as real < g.countWidth as real + 1.0
    ensures widthMm / aspect >= 0.0 ==>
      g.countHeight >= 0 &&
      g.countHeight as real <= widthMm / aspect / g.unitSize as real < g.countHeight as real + 1.0
    ensures g.totalPieces == g.countWidth * g.countHeight
    ensures g.outputWidthCm == (g.countWidth * g.unitSize) as real / 10.0
    ensures g.outputHeightCm == (g.countHeight * g.unitSize) as real / 10.0
    ensures widthMm >= 0.0 ==> g.outputWidthCm <= widthMm / 10.0
    ensures widthMm / aspect >= 0.0 ==> g.outputHeightCm <= widthMm / aspect / 10.0
  {
    var heightMm := widthMm / aspect;
    var unit := UnitSize(minDim);
    var countWidth := Trunc(widthMm / unit as real);
    var countHeight := Trunc(heightMm / unit as real);
    GridPlan(unit, countWidth, countHeight, countWidth * countHeight,
             (countWidth * unit) as real / 10.0, (countHeight * unit) as real / 10.0)
  }

  /** An accepted width of at least 40 mm always gives at least two units across. */
  lemma AcceptedWidthHasUnits(widthMm: real, minDim: int, aspect: real)
    requires widthMm >= MinimumWidth && aspect != 0.0
    ensures PlanGrid(widthMm, minDim, aspect).countWidth >= 2
  {
  }

  /** Whether update_rendering_work goes on past its two early returns. */
  predicate Accepts(previousWidthMm: real, widthMm: real)
  {
    previousWidthMm != widthMm && widthMm >= MinimumWidth
  }

  /**
   * The end of one call of update_rendering_work: an exception caught by
   * update_rendering, one of the two early returns, or a computed plan.
   */
  datatype RenderOutcome = Failed | Skipped | Planned(plan: GridPlan)
}
