/**
 * The palette: rows of colors.csv and the entries load_csv derives from them
 * (main.py:38-52).
 */
module Palette {
  import opened Wrappers
  import opened LabColour
  import Hex

  /** An RGB pixel with 8-bit channels. */
  datatype Rgb = Rgb(r: Byte, g: Byte, b: Byte)

  /** One row of colors.csv as the CSV reader yields it: every field is text. */
  datatype Record = Record(id: string, name: string, rgb: string, isTrans: string)

  /**
   * A palette entry: the row's fields plus the keys load_csv adds to it, the
   * decoded colour (rgb_array), its Lab form (lab_array) and the normalised
   * Lab form (lab_array_norm).
   */
  datatype Entry = Entry(id: string, name: string, rgb: string, isTrans: string,
                         rgbArray: Rgb, lab: Lab, labNorm: Norm)

  /** Why a colour string could not be turned into a pixel. */
  datatype DecodeError = NotHex(position: nat) | WrongLength(length: nat)

  /** The first row whose colour could not be decoded, and why. */
  datatype LoadError = LoadError(record: nat, cause: DecodeError)

  /**
   * bytearray.fromhex followed by the store into a one-pixel 3-channel image:
   * three bytes fill the three channels, a single byte is broadcast to all
   * three, and any other length is refused by the store.
   */
  function DecodeColour(text: string): (r: Result<Rgb, DecodeError>)
  {
    match Hex.FromHex(text)
    case Err(p) => Err(NotHex(p))
    case Ok(bs) =>
      if |bs| == 3 then Ok(Rgb(bs[0], bs[1], bs[2]))
      else if |bs| == 1 then Ok(Rgb(bs[0], bs[0], bs[0]))
      else Err(WrongLength(|bs|))
  }

  /** The six-digit spelling of a colour decodes back to that colour. */
  lemma DecodeColourRoundTrip(c: Rgb)
    ensures DecodeColour(Hex.ToHex([c.r, c.g, c.b])) == Ok(c)
  {
    Hex.HexRoundTrip([c.r, c.g, c.b]);
  }

  /** Six hexadecimal digits decode to the pixel of their three digit pairs. */
  lemma DecodeSixDigits(text: string)
    requires |text| == 6 && forall i :: 0 <= i < 6 ==> Hex.IsHexDigit(text[i])
    ensures DecodeColour(text) == Ok(Rgb(16 * Hex.DigitValue(text[0]) + Hex.DigitValue(text[1]),
                                         16 * Hex.DigitValue(text[2]) + Hex.DigitValue(text[3]),
                                         16 * Hex.DigitValue(text[4]) + Hex.DigitValue(text[5])))
  {
    Hex.SixDigits(text);
  }

  /** A string with a character that is neither whitespace nor a digit is refused. */
  lemma DecodeRejectsNonHex(text: string, k: nat)
    requires k < |text| && !Hex.IsSpace(text[k]) && !Hex.IsHexDigit(text[k])
    ensures DecodeColour(text).Err? && DecodeColour(text).error.NotHex?
  {
    Hex.FromHexRejects(text, k);
  }

  /** e is the entry load_csv makes of rec, with toLab standing for the RGB to Lab conversion. */
  ghost predicate LoadedFrom(e: Entry, rec: Record, toLab: Rgb -> Lab)
  {
    && e.id == rec.id && e.name == rec.name && e.rgb == rec.rgb && e.isTrans == rec.isTrans
    && DecodeColour(rec.rgb) == Ok(e.rgbArray)
    && e.lab == toLab(e.rgbArray)
    && e.labNorm == Normalize(e.lab)
  }

  /** Every entry's normalised colour is the normalisation of its Lab colour. */
  ghost predicate WellFormed(p: seq<Entry>)
  {
    forall k :: 0 <= k < |p| ==> p[k].labNorm == Normalize(p[k].lab)
  }

  /**
   * The decoding loop of load_csv. toLab stands for OpenCV's RGB to Lab
   * conversion of a one-pixel image. The first row whose colour does not
   * decode ends the load with an error naming that row.
   */
  method LoadPalette(records: seq<Record>, toLab: Rgb -> Lab) returns (r: Result<seq<Entry>, LoadError>)
    ensures r.Ok? <==> forall k :: 0 <= k < |records| ==> DecodeColour(records[k].rgb).Ok?
    ensures r.Ok? ==> |r.value| == |records|
    ensures r.Ok? ==> forall k :: 0 <= k < |records| ==> LoadedFrom(r.value[k], records[k], toLab)
    ensures r.Ok? ==> WellFormed(r.value)
    ensures r.Err? ==> && r.error.record < |records|
                       && DecodeColour(records[r.error.record].rgb) == Err(r.error.cause)
                       && forall k :: 0 <= k < r.error.record ==> DecodeColour(records[k].rgb).Ok?
  {
    var entries: seq<Entry> := [];
    for k := 0 to |records|
      invariant |entries| == k
      invariant forall m :: 0 <= m < k ==> LoadedFrom(entries[m], records[m], toLab)
    {
      var rec := records[k];
      match DecodeColour(rec.rgb)
      case Err(e) =>
        return Err(LoadError(k, e));
      case Ok(px) =>
        var lab := toLab(px);
        entries := entries + [Entry(rec.id, rec.name, rec.rgb, rec.isTrans, px, lab, Normalize(lab))];
    }
    return Ok(entries);
  }
}
