/**
 * The UI object of main.py without its widgets: the loaded palette, the one
 * field that persists between renderings, the pieces dictionary, and the three
 * methods that do the work.
 */
module LegoUi {
  import opened Wrappers
  import opened LabColour
  import opened Palette
  import opened Nearest
  import opened Tally
  import opened Planner

  /** The rows of a 2-D Lab buffer, row-major. */
  function Grid(img: array2<Lab>): (g: seq<seq<Lab>>)
    reads img
    ensures |g| == img.Length0
    ensures forall i :: 0 <= i < |g| ==> |g[i]| == img.Length1
    ensures forall i, j :: 0 <= i < img.Length0 && 0 <= j < img.Length1 ==> g[i][j] == img[i, j]
  {
    seq(img.Length0, i requires 0 <= i < img.Length0 reads img =>
      seq(img.Length1, j requires 0 <= j < img.Length1 reads img => img[i, j]))
  }

  /** The cells of the rows, row after row. */
  function Flatten(rows: seq<seq<Lab>>): seq<Lab>
  {
    if rows == [] then [] else Flatten(rows[..|rows| - 1]) + rows[|rows| - 1]
  }

  lemma {:induction false} FlattenLength(rows: seq<seq<Lab>>, width: nat)
    requires forall i :: 0 <= i < |rows| ==> |rows[i]| == width
    ensures |Flatten(rows)| == |rows| * width
    decreases |rows|
  {
    if rows != [] {
      FlattenLength(rows[..|rows| - 1], width);
    }
  }

  /** The entries the cells resolve to, in the order of the cells. */
  function ResolveAll(p: seq<Entry>, cells: seq<Lab>): (s: seq<Entry>)
  {
    if p == [] then [] else seq(|cells|, k requires 0 <= k < |cells| => Resolve(p, cells[k]))
  }

  lemma ResolveAllAppend(p: seq<Entry>, cells: seq<Lab>, px: Lab)
    requires |p| > 0
    ensures ResolveAll(p, cells + [px]) == ResolveAll(p, cells) + [Resolve(p, px)]
  {
    assert forall k :: 0 <= k < |cells| ==> (cells + [px])[k] == cells[k];
  }

  lemma ResolveAllConcat(p: seq<Entry>, a: seq<Lab>, b: seq<Lab>)
    ensures ResolveAll(p, a + b) == ResolveAll(p, a) + ResolveAll(p, b)
  {
    if p != [] {
      var l, m, n := ResolveAll(p, a + b), ResolveAll(p, a), ResolveAll(p, b);
      forall k | 0 <= k < |l| ensures l[k] == (m + n)[k] {
        if k < |a| {
          assert (a + b)[k] == a[k];
        } else {
          assert (a + b)[k] == b[k - |a|];
        }
      }
      assert l == m + n;
    }
  }

  /** c is the Lab colour of some entry of p. */
  ghost predicate IsPaletteColour(p: seq<Entry>, c: Lab)
  {
    exists k :: 0 <= k < |p| && p[k].lab == c
  }

  /** A pixel that has the Lab colour of an entry of a well-formed palette resolves to that colour. */
  lemma PaletteColourKept(p: seq<Entry>, c: Lab)
    requires WellFormed(p) && IsPaletteColour(p, c)
    ensures |p| > 0 && Resolve(p, c).lab == c
  {
    var k :| 0 <= k < |p| && p[k].lab == c;
    PaletteColourIsFixed(p, k);
  }

  /**
   * Cells that all have the Lab colour of some palette entry resolve to
   * entries of those same colours, so a grid made of palette colours comes
   * out of the quantizer unchanged.
   */
  lemma PaletteCellsAreFixed(p: seq<Entry>, cells: seq<Lab>)
    requires WellFormed(p) && |p| > 0
    requires forall c :: 0 <= c < |cells| ==> IsPaletteColour(p, cells[c])
    ensures |ResolveAll(p, cells)| == |cells|
    ensures forall c :: 0 <= c < |cells| ==> ResolveAll(p, cells)[c].lab == cells[c]
  {
    forall c | 0 <= c < |cells| ensures ResolveAll(p, cells)[c].lab == cells[c] {
      var k :| 0 <= k < |p| && p[k].lab == cells[c];
      PaletteColourIsFixed(p, k);
    }
  }

  /** The counts of a whole picture's tally add up to its cells minus its distinct ids. */
  lemma ImageTallyCount(p: seq<Entry>, rows: seq<seq<Lab>>, width: nat)
    requires forall i :: 0 <= i < |rows| ==> |rows[i]| == width
    requires |p| > 0 || |rows| == 0 || width == 0
    ensures TotalCount(TallyOf(ResolveAll(p, Flatten(rows)))) ==
      |rows| * width - |IdSet(ResolveAll(p, Flatten(rows)))|
  {
    FlattenLength(rows, width);
    TallyCountsSum(ResolveAll(p, Flatten(rows)));
  }

  /** The entries resolved from the first i + 1 rows extend those of the first i rows. */
  lemma SeenStep(p: seq<Entry>, rows: seq<seq<Lab>>, i: nat)
    requires i < |rows|
    ensures ResolveAll(p, Flatten(rows[..i + 1])) == ResolveAll(p, Flatten(rows[..i])) + ResolveAll(p, rows[i])
  {
    assert rows[..i + 1][..i] == rows[..i];
    ResolveAllConcat(p, Flatten(rows[..i]), rows[i]);
  }

  class UI {
    /** colour_list: the palette as loaded. */
    const palette: seq<Entry>
    /** previous_desired_width: the last output width accepted, in mm. */
    var previousDesiredWidth: real
    /** lego_pieces: id to entry and count, in insertion order. */
    var pieces: seq<Piece>

    constructor (palette: seq<Entry>)
      requires WellFormed(palette)
      ensures this.palette == palette && WellFormed(this.palette)
      ensures previousDesiredWidth == 0.0 && pieces == []
    {
      this.palette := palette;
      previousDesiredWidth := 0.0;
      pieces := [];
    }

    /**
     * find_closest_colour: scan the palette from its first entry, keeping the
     * entry with the smallest distance seen so far and replacing it only on a
     * strictly smaller distance.
     */
    method FindClosestColour(px: Lab) returns (colour: Entry, k: nat)
      requires |palette| > 0
      ensures IsFirstNearest(palette, Normalize(px), k) && colour == palette[k]
      ensures k == NearestIndex(palette, Normalize(px))
    {
      var q := Normalize(px);
      k := 0;
      var dist := Dist(palette[0], q);
      for i := 0 to |palette|
        invariant k < |palette| && k <= i
        invariant dist == Dist(palette[k], q)
        invariant forall j :: 0 <= j < i ==> dist <= Dist(palette[j], q)
        invariant forall j :: 0 <= j < k ==> dist < Dist(palette[j], q)
      {
        var distLoop := Dist(palette[i], q);
        if distLoop < dist {
          dist := distLoop;
          k := i;
        }
      }
      colour := palette[k];
      NearestIndexIsFirstNearest(palette, q);
      FirstNearestUnique(palette, q, k, NearestIndex(palette, q));
    }

    /**
     * The inner loop of convert_image_to_lego_colours: the cells of row i,
     * left to right, each replaced by the Lab colour of the entry it resolves
     * to, each sighting recorded in the dictionary. row is the row as it was.
     */
    method ConvertRow(img: array2<Lab>, i: nat, ghost row: seq<Lab>, ghost before: seq<Entry>)
      returns (ghost after: seq<Entry>)
      requires i < img.Length0 && |row| == img.Length1
      requires |palette| > 0 || img.Length1 == 0
      requires forall c :: 0 <= c < img.Length1 ==> img[i, c] == row[c]
      requires pieces == TallyOf(before)
      modifies this`pieces, img
      ensures after == before + ResolveAll(palette, row)
      ensures pieces == TallyOf(after)
      ensures forall c :: 0 <= c < img.Length1 ==> |palette| > 0 && img[i, c] == Resolve(palette, row[c]).lab
      ensures forall r, c :: 0 <= r < img.Length0 && 0 <= c < img.Length1 && r != i ==> img[r, c] == old(img[r, c])
    {
      ghost var want := ResolveAll(palette, row);
      ghost var target := Extend(pieces, want);
      for j := 0 to img.Length1
        invariant Extend(pieces, want[j..]) == target
        invariant forall c :: 0 <= c < j ==> img[i, c] == want[c].lab
        invariant forall c :: j <= c < img.Length1 ==> img[i, c] == row[c]
        invariant forall r, c :: 0 <= r < img.Length0 && 0 <= c < img.Length1 && r != i ==> img[r, c] == old(img[r, c])
      {
        var colour, k := FindClosestColour(img[i, j]);
        assert colour == want[j];
        img[i, j] := colour.lab;
        pieces := AddSighting(pieces, colour);
        assert want[j..][1..] == want[j + 1..];
      }
      assert want[img.Length1..] == [];
      after := before + want;
      ExtendTally(before, want);
    }

    /**
     * The cell loop of convert_image_to_lego_colours over a Lab buffer: each
     * cell, row by row, is replaced by the Lab colour of the entry it resolves
     * to, and the sighting of that entry is recorded in a fresh dictionary.
     */
    method ConvertImageToLegoColours(img: array2<Lab>)
      requires |palette| > 0 || img.Length0 == 0 || img.Length1 == 0
      modifies this`pieces, img
      ensures forall i, j :: 0 <= i < img.Length0 && 0 <= j < img.Length1 ==>
        |palette| > 0 && img[i, j] == Resolve(palette, old(img[i, j])).lab
      ensures pieces == TallyOf(ResolveAll(palette, Flatten(old(Grid(img)))))
      ensures TotalCount(pieces) ==
        img.Length0 * img.Length1 - |IdSet(ResolveAll(palette, Flatten(old(Grid(img)))))|
      ensures WellFormed(palette) ==> forall i, j :: 0 <= i < img.Length0 && 0 <= j < img.Length1 ==>
        IsPaletteColour(palette, old(img[i, j])) ==> img[i, j] == old(img[i, j])
    {
      ghost var src := Grid(img);
      ghost var seen: seq<Entry> := [];
      var height := img.Length0;
      pieces := [];
      for i := 0 to height
        invariant seen == ResolveAll(palette, Flatten(src[..i]))
        invariant pieces == TallyOf(seen)
        invariant forall r, c :: 0 <= r < i && 0 <= c < img.Length1 ==>
          |palette| > 0 && img[r, c] == Resolve(palette, src[r][c]).lab
        invariant forall r, c :: i <= r < height && 0 <= c < img.Length1 ==> img[r, c] == src[r][c]
      {
        seen := ConvertRow(img, i, src[i], seen);
        SeenStep(palette, src, i);
      }
      assert src[..height] == src;
      ImageTallyCount(palette, src, img.Length1);
      forall i, j | 0 <= i < height && 0 <= j < img.Length1 && WellFormed(palette) && IsPaletteColour(palette, src[i][j])
        ensures img[i, j] == src[i][j]
      {
        assert img[i, j] == Resolve(palette, src[i][j]).lab;
        PaletteColourKept(palette, src[i][j]);
      }
    }

    /**
     * update_rendering_work up to the resize, with update_rendering's catch:
     * widthText is the parsed width field in cm (None when float() would
     * raise), minDimText the parsed minimum-dimension field (None when int()
     * would raise), and imageWidth and imageHeight the source image's size in
     * pixels. A width equal to the last accepted one, or below 40 mm, changes
     * nothing; any other width is stored before the work that can still fail.
     */
    method UpdateRenderingWork(widthText: Option<real>, minDimText: Option<int>,
                               imageWidth: nat, imageHeight: nat) returns (o: RenderOutcome)
      modifies this`previousDesiredWidth
      ensures imageHeight == 0 || widthText.None? ==>
        o == Failed && previousDesiredWidth == old(previousDesiredWidth)
      ensures imageHeight > 0 && widthText.Some? && !Accepts(old(previousDesiredWidth), widthText.value * 10.0) ==>
        o == Skipped && previousDesiredWidth == old(previousDesiredWidth)
      ensures imageHeight > 0 && widthText.Some? && Accepts(old(previousDesiredWidth), widthText.value * 10.0) ==>
        && previousDesiredWidth == widthText.value * 10.0
        && o == if imageWidth == 0 || minDimText.None? then Failed
                else Planned(PlanGrid(widthText.value * 10.0, minDimText.value,
                                      imageWidth as real / imageHeight as real))
    {
      if imageHeight == 0 {
        return Failed;
      }
      var aspect := imageWidth as real / imageHeight as real;
      if widthText.None? {
        return Failed;
      }
      var outputWidth := widthText.value * 10.0;
      if previousDesiredWidth == outputWidth {
        return Skipped;
      }
      if outputWidth < MinimumWidth {
        return Skipped;
      }
      previousDesiredWidth := outputWidth;
      if aspect == 0.0 {
        return Failed;
      }
      if minDimText.None? {
        return Failed;
      }
      return Planned(PlanGrid(outputWidth, minDimText.value, aspect));
    }
  }

  /**
   * Two renderings with the same width text: the second one is skipped even
   * when the other settings or the image width changed in between.
   */
  method RenderTwice(ui: UI, widthText: real, minDim1: Option<int>, minDim2: Option<int>,
                     imageWidth1: nat, imageWidth2: nat, imageHeight: nat)
    returns (first: RenderOutcome, second: RenderOutcome)
    requires imageHeight > 0
    modifies ui
    ensures second == Skipped
  {
    first := ui.UpdateRenderingWork(Some(widthText), minDim1, imageWidth1, imageHeight);
    second := ui.UpdateRenderingWork(Some(widthText), minDim2, imageWidth2, imageHeight);
  }
}
