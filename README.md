# lego_art core in Dafny

lego_art turns a picture into a LEGO mosaic. It reads a palette of LEGO
colours from `colors.csv`. Each hex colour is decoded and converted to 8-bit
Lab, and the Lab triple is then normalised.

When the requested output width changes, the program does four things:
- it plans a grid of LEGO units;
- it resizes the picture to that grid;
- it replaces every cell with the Lab colour of the nearest palette entry, where
  the first entry wins a tie;
- it counts the pieces per colour id in a dictionary, which is written out in
  insertion order as the bill of materials.

This project models that core and proves the following:
- **Palette (`Palette`, `Hex`).** `bytearray.fromhex` is modelled with its
  whitespace skipping and where it reports errors. The one-pixel store keeps
  three bytes, broadcasts a single byte and rejects any other length.
  `LoadPalette` either builds every entry from its row or names the first row
  that fails. Six hex digits decode to their three byte pairs, and the
  upper-case spelling of any three bytes decodes back to them.
- **Distance (`LabColour`).** Normalisation is exact when counted in units of
  1/256. The distance is kept squared, because the square root does not change
  which of two distances is smaller. It is zero exactly on equal triples, and
  it is symmetric.
- **Nearest colour (`Nearest`, `LegoUi.UI.FindClosestColour`).** The scan
  returns the first index at minimum distance. That index is unique. A tie
  never selects the later entry. A pixel that already has a palette colour
  keeps that colour.
- **Quantizer (`LegoUi.UI.ConvertRow`, `LegoUi.UI.ConvertImageToLegoColours`,
  `Tally`).**
  - The 2-D Lab buffer is overwritten in place, row-major. Every cell
    becomes the Lab colour of the entry it resolves to.
  - The dictionary is a sequence of rows with distinct ids, kept in the order
    the ids were first seen. The row for an id holds the first entry seen with
    that id. Its count is one less than the number of cells that resolved to
    it, because the first sighting stores 0.
  - So the counts add up to the number of cells minus the number of distinct
    ids.
- **Planner (`Planner`, `LegoUi.UI.UpdateRenderingWork`).**
  - The text width in cm is turned into mm.
  - A width equal to the last accepted one, or below 40 mm, changes nothing.
  - Any other width is stored before the steps that can still fail.
  - The unit is 16 mm when the minimum dimension is 4, and 8 mm otherwise.
  - The unit counts are truncated quotients, and the reported size is
    count × unit / 10 cm.
  - Rendering the same width text twice skips the second rendering.

Module layout: `Wrappers` (Option, Result), `LabColour`, `Hex`, `Palette`,
`Nearest`, `Tally`, `Planner`, `LegoUi` (the `UI` class) and `AsWritten` (the
uint8 arithmetic of the source under NumPy 2; see Findings).

The code never checks the palette for duplicate ids, and a colour's first
sighting stores a count of 0 without incrementing it. So a 2×1 picture of two
different colours tallies 0 and 0 (`Tally.TallyOfTwoColours`), and nine cells of one colour tally 8
(`Tally.TallyOfRepeated`).

## Model

| member | source | states |
|---|---|---|
| LabColour.Normalize | main.py:54-59 | the normalised triple stands for (L·100/256, a−128, b−128) exactly, and lies in [0, 99.61] × [−128, 127] × [−128, 127] |
| LabColour.NormalizeInjective | main.py:54-59 | two pixels with the same normalised form are the same pixel |
| LabColour.SqDistZeroIff | main.py:61-66 | the squared distance is 0 exactly when the two normalised triples are equal |
| LabColour.SqDistSymmetric | main.py:61-66 | the distance does not depend on the order of its arguments |
| Hex.FirstNonAscii | main.py:45 | fromhex's ASCII check: the index of the first non-ASCII character, or the length when there is none |
| Hex.FromHexAt | main.py:45 | decoding from position i yields at most half as many bytes as characters remain, and any error position lies between i and the end |
| Hex.HexRoundTrip | main.py:45 | decoding the hex spelling of any byte string gives back those bytes |
| Hex.SixDigits | main.py:45 | six hex digits decode to the three bytes their digit pairs spell |
| Hex.FromHexRejects | main.py:45 | a character that is neither whitespace nor a hex digit makes decoding fail, at or before that character when the text is ASCII |
| Palette.DecodeColourRoundTrip | main.py:45-48 | the six-digit spelling of any RGB pixel decodes to that pixel |
| Palette.DecodeSixDigits | main.py:45-48 | a six-digit colour string becomes the pixel of its three digit pairs |
| Palette.DecodeRejectsNonHex | main.py:45-48 | a colour string with a non-hex, non-space character is refused with a position error |
| Palette.LoadPalette | main.py:44-52 | succeeds exactly when every row's colour decodes; then entry k keeps row k's fields, its decoded pixel, that pixel's Lab form and its normalisation; otherwise the error names the first failing row and its cause |
| Nearest.NearestIndex | main.py:68-79 | the chosen index is inside the palette |
| Nearest.NearestIndexIsFirstNearest | main.py:68-79 | the chosen entry is at minimum distance, and every earlier entry is strictly farther |
| Nearest.FirstNearestUnique | main.py:74-78 | only one index can be the first at minimum distance |
| Nearest.TieGoesToEarlier | main.py:76 | of two entries at equal distance, the later one is never chosen |
| Nearest.PaletteColourIsFixed | main.py:68-79 | in a well-formed palette, a pixel with an entry's Lab colour resolves to an entry of that same colour |
| Tally.Find | main.py:98 | the dictionary's `in` test: the row with the id, or none when no row has it |
| Tally.TallyOfAppend | main.py:98-102 | one more cell updates the dictionary by exactly one sighting of its entry |
| Tally.ExtendTally | main.py:94-102 | recording more cells after a prefix gives the dictionary of the whole sequence |
| Tally.TallyDescribes | main.py:98-102 | one row per id seen, in first-seen order, holding the first entry seen with that id and one less than its number of occurrences |
| Tally.TallyRowOf | main.py:98-102 | an id has a row exactly when it was seen; that row holds the first entry with the id and a count one less than its occurrences |
| Tally.TallyDistinct | main.py:107-108 | no id has two rows in the bill of materials |
| Tally.TallyIdSet | main.py:107-108 | the ids of the rows are exactly the ids seen |
| Tally.TallyCountsSum | main.py:98-102 | the counts add up to the number of cells minus the number of distinct ids |
| Tally.TallyOfTwoColours | main.py:98-102 | two cells of different ids give two rows with count 0, in order |
| Tally.TallyOfRepeated | main.py:98-102 | n + 1 cells of one entry give one row with count n |
| Planner.Trunc | main.py:134-135 | int() on a float: rounds toward zero from either side |
| Planner.PlanGrid | main.py:126-140 | the unit is 16 exactly when the minimum dimension is 4, else 8; the counts are the floors of width/unit and height/unit; total = width count × height count; the reported sizes are count × unit / 10 cm and never exceed the requested ones |
| Planner.AcceptedWidthHasUnits | main.py:122-134 | an accepted width of at least 40 mm always spans at least two units |
| LegoUi.PaletteColourKept | main.py:68-79 | in a well-formed palette, a pixel that has some entry's Lab colour resolves to that colour |
| LegoUi.PaletteCellsAreFixed | main.py:94-97 | cells that already have palette colours are given those same colours |
| LegoUi.UI.constructor | main.py:16-23 | the palette is the one loaded and stays well formed, the last accepted width starts at 0 and the dictionary is empty |
| LegoUi.UI.FindClosestColour | main.py:68-79 | the loop returns the first entry at minimum distance from the normalised pixel, and its index is NearestIndex's |
| LegoUi.UI.ConvertRow | main.py:95-102 | the cells of one row become the colours of the entries they resolve to, other rows are untouched, and the dictionary grows by those sightings in order |
| LegoUi.UI.ConvertImageToLegoColours | main.py:89-102 | every cell becomes the Lab colour of the entry its old value resolves to; the dictionary is the tally of those entries in row-major order; its counts add up to cells minus distinct ids; with a well-formed palette, a cell that already has a palette colour keeps it |
| LegoUi.UI.UpdateRenderingWork | main.py:113-135 | zero image height or unparsable width fails and keeps the stored width; an unchanged width or one below 40 mm is skipped and keeps it; any other width is stored, then the render fails on zero image width or an unparsable minimum dimension, or is planned by PlanGrid |
| LegoUi.RenderTwice | main.py:119-120 | a second rendering with the same width text is skipped, whatever else changed |
| AsWritten.FirstAtZeroIsChosen | main.py:71-78 | with the uint8 arithmetic as written, a first entry at distance 0 is always the one chosen |
| AsWritten.WrapRecoloursPaletteColour | main.py:54-66 | with the uint8 arithmetic as written, a pixel (50, 128, 128) takes the colour of a first entry (50, 144, 128) |

## Left out

- PyQt: the window, widgets, signals, the validator and the text of the output labels (main.py:137-141) are not modelled. The plan carries the numbers those labels show.
- File I/O: reading `colors.csv` is left out; `LoadPalette` takes the CSV rows as records. `turtle.jpg` is left out too. Writing `lego_bom.csv` is left out; the bill of materials is the `pieces` sequence, in its order.
- OpenCV: `cvtColor` from RGB to Lab is the `toLab` parameter of `LoadPalette`. `resize` is not modelled; `ConvertImageToLegoColours` takes the resized Lab buffer. The BGR to Lab conversion before the cell loop and the Lab to BGR conversion after it are not modelled.
- The square root and float rounding: distances are compared as exact squared integers in units of 1/256. Every value involved is a small multiple of 1/256, so the float computation is exact, and the correctly rounded square root keeps these comparisons.
- Non-finite floats: a width text of `inf` or `nan` is not modelled. `UpdateRenderingWork` takes the parsed width as a real, or None when `float()` raises, and the parsed minimum dimension as an int, or None when `int()` raises.
- The exception handler of update_rendering (main.py:81-87): every failure becomes the `Failed` outcome. A zero grid dimension makes `resize` raise after the labels are set; the model stops at the plan and does not capture that failure.
- LegoUi.UI.ConvertImageToLegoColours: requires a non-empty palette unless the buffer has no cells. With an empty palette, the source's `colour_list[0]` raises on the first cell.
- Palette.LoadPalette: the palette is class state shared between instances (main.py:15). The rows are mutated in place, and decoding happens after all rows are read. The model builds a fresh sequence instead.
- Tally: in the source, the dictionary stores the palette entry's own dict and sets `count` on it, so counts also show up on the shared palette rows. The model keeps counts in the dictionary rows only. Every first sighting resets the count to 0, so the tally is the same.
- The NumPy uint8 arithmetic of lab_normalization and compute_lab_distance is handled as a finding. It wraps under NumPy 2.0 and later, whose scalar promotion rules (NEP 50) keep uint8 when a uint8 scalar meets a Python int. Under NumPy 1.x such a mix is promoted to int64 and nothing wraps, so there the signed arithmetic of `LabColour`, which the rest of the model uses, is the program as written.
- Planner.PlanGrid and LegoUi.UI.UpdateRenderingWork: the aspect ratio, the height and the quotients before int() (main.py:115, 126, 134-135) are exact reals, not IEEE doubles. So at an exact multiple of the unit a count can differ from the program's by one. For a 700×300 image and width text "28", the doubles give 280 / (700/300) = 119.99999999999999 and int(…/8) = 14 rows, while the model gives 15.
- LegoUi.UI.constructor: the initial rendering is not part of it. `__init__` also reads `turtle.jpg` and calls update_rendering() (main.py:31-33), so in the program the default width × 10 is already accepted when construction ends; the model starts from 0 and leaves that first call to `UpdateRenderingWork`.

## Findings

| source | as written | input that shows it | evidently intended | confidence | as-written member | corrected member |
|---|---|---|---|---|---|---|
| main.py:54-66 | Lab channels are numpy uint8 scalars. Under NumPy 2.0 and later (NEP 50 promotion), a uint8 scalar combined with a Python int stays uint8, so `arr1[0]*100`, `arr1[1] - 128` and `arr1[2] - 128`, the a and b differences and their squares all wrap modulo 256. Distinct colours can be at distance 0 | palette whose first entry is Lab (50, 144, 128), then an entry (50, 128, 128); pixel (50, 128, 128). The a difference is 16, and 16·16 = 256 wraps to 0, so the pixel takes the first entry's colour | signed arithmetic: distance 0 only for equal colours, and a pixel of a palette colour keeps it | medium, not executed (NumPy 2.0 and later only; under NumPy 1.x the mix becomes int64 and nothing wraps) | AsWritten.WrapRecoloursPaletteColour | Nearest.PaletteColourIsFixed |
