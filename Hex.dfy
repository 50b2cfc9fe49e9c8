/**
 * bytearray.fromhex as load_csv applies it to a palette colour string
 * (main.py:45): pairs of hexadecimal digits, upper or lower case, one byte per
 * pair, with ASCII whitespace allowed before each pair. The error value is the
 * position Python reports in its ValueError.
 */
module Hex {
  import opened Wrappers
  import opened LabColour

  /** The characters Python counts as ASCII whitespace: space, tab, LF, VT, FF, CR. */
  predicate IsSpace(c: char)
  {
    c == ' ' || 9 <= c as int <= 13
  }

  predicate IsHexDigit(c: char)
  {
    ('0' <= c <= '9') || ('a' <= c <= 'f') || ('A' <= c <= 'F')
  }

  predicate IsAscii(c: char)
  {
    c as int < 128
  }

  function DigitValue(c: char): (v: nat)
    requires IsHexDigit(c)
    ensures v < 16
  {
    if '0' <= c <= '9' then c as int - '0' as int
    else if 'a' <= c <= 'f' then c as int - 'a' as int + 10
    else c as int - 'A' as int + 10
  }

  /** The upper-case digit for a value below 16, as the palette file writes it. */
  function DigitChar(v: nat): (c: char)
    requires v < 16
    ensures IsHexDigit(c) && DigitValue(c) == v
  {
    if v < 10 then ('0' as int + v) as char else ('A' as int + v - 10) as char
  }

  /** Index of the first non-ASCII character of s, or |s| when there is none. */
  function FirstNonAscii(s: string): (k: nat)
    ensures k <= |s|
    ensures forall i :: 0 <= i < k ==> IsAscii(s[i])
    ensures k < |s| ==> !IsAscii(s[k])
    ensures (forall i :: 0 <= i < |s| ==> IsAscii(s[i])) ==> k == |s|
  {
    if s == [] || !IsAscii(s[0]) then 0 else 1 + FirstNonAscii(s[1..])
  }

  /**
   * bytearray.fromhex(s). A string with a non-ASCII character is refused at the
   * first such character before any digit is read; otherwise the pairs are
   * decoded from left to right.
   */
  function FromHex(s: string): (r: Result<seq<Byte>, nat>)
  {
    var k := FirstNonAscii(s);
    if k < |s| then Err(k) else FromHexAt(s, 0)
  }

  /** Decoding of s[i..]: skip whitespace, then read a high and a low digit. */
  function FromHexAt(s: string, i: nat): (r: Result<seq<Byte>, nat>)
    requires i <= |s|
    ensures r.Ok? ==> 2 * |r.value| <= |s| - i
    ensures r.Err? ==> i <= r.error <= |s|
    decreases |s| - i
  {
    if i == |s| then Ok([])
    else if IsSpace(s[i]) then FromHexAt(s, i + 1)
    else if !IsHexDigit(s[i]) then Err(i)
    else if i + 1 == |s| || !IsHexDigit(s[i + 1]) then Err(i + 1)
    else
      match FromHexAt(s, i + 2)
      case Ok(rest) => Ok([16 * DigitValue(s[i]) + DigitValue(s[i + 1])] + rest)
      case Err(p) => Err(p)
  }

  /** The two-digit upper-case hexadecimal spelling of a byte string. */
  function ToHex(bs: seq<Byte>): (s: string)
    ensures |s| == 2 * |bs|
    ensures forall i :: 0 <= i < |s| ==> IsHexDigit(s[i])
  {
    if bs == [] then [] else [DigitChar(bs[0] / 16), DigitChar(bs[0] % 16)] + ToHex(bs[1..])
  }

  lemma {:induction false} FromHexAtToHex(s: string, i: nat, bs: seq<Byte>)
    requires i <= |s| && s[i..] == ToHex(bs)
    ensures FromHexAt(s, i) == Ok(bs)
    decreases bs
  {
    if bs != [] {
      var t := ToHex(bs);
      assert s[i] == t[0] == DigitChar(bs[0] / 16);
      assert s[i + 1] == t[1] == DigitChar(bs[0] % 16);
      assert s[i + 2..] == t[2..] == ToHex(bs[1..]);
      assert !IsSpace(s[i]);
      assert 16 * DigitValue(s[i]) + DigitValue(s[i + 1]) == bs[0];
      FromHexAtToHex(s, i + 2, bs[1..]);
      assert [bs[0]] + bs[1..] == bs;
    }
  }

  /** Decoding the hexadecimal spelling of a byte string gives it back. */
  lemma HexRoundTrip(bs: seq<Byte>)
    ensures FromHex(ToHex(bs)) == Ok(bs)
  {
    var s := ToHex(bs);
    assert forall i :: 0 <= i < |s| ==> IsAscii(s[i]);
    assert s[0..] == s;
    FromHexAtToHex(s, 0, bs);
  }

  /** One step of the decoding: a pair of digits yields one byte. */
  lemma DecodePair(s: string, i: nat)
    requires i + 1 < |s| && IsHexDigit(s[i]) && IsHexDigit(s[i + 1])
    ensures FromHexAt(s, i + 2).Ok? ==>
      FromHexAt(s, i) == Ok([16 * DigitValue(s[i]) + DigitValue(s[i + 1])] + FromHexAt(s, i + 2).value)
  {
    assert !IsSpace(s[i]);
  }

  /** Six hexadecimal digits, as in a palette colour, decode to three bytes. */
  lemma SixDigits(s: string)
    requires |s| == 6 && forall i :: 0 <= i < 6 ==> IsHexDigit(s[i])
    ensures FromHex(s) == Ok([16 * DigitValue(s[0]) + DigitValue(s[1]),
                              16 * DigitValue(s[2]) + DigitValue(s[3]),
                              16 * DigitValue(s[4]) + DigitValue(s[5])])
  {
    assert forall i :: 0 <= i < |s| ==> IsAscii(s[i]);
    var b0: Byte, b1: Byte, b2: Byte := 16 * DigitValue(s[0]) + DigitValue(s[1]),
                      16 * DigitValue(s[2]) + DigitValue(s[3]),
                      16 * DigitValue(s[4]) + DigitValue(s[5]);
    assert FromHexAt(s, 6) == Ok([]);
    DecodePair(s, 4);
    assert [b2] + [] == [b2];
    DecodePair(s, 2);
    assert [b1] + [b2] == [b1, b2];
    DecodePair(s, 0);
    assert [b0] + [b1, b2] == [b0, b1, b2];
    assert FromHexAt(s, 0) == Ok([b0, b1, b2]);
  }

  /**
   * A character that is neither whitespace nor a hexadecimal digit makes the
   * decoding fail, at that character or earlier.
   */
  lemma {:induction false} FromHexAtRejects(s: string, i: nat, k: nat)
    requires i <= k < |s| && !IsSpace(s[k]) && !IsHexDigit(s[k])
    ensures FromHexAt(s, i).Err? && FromHexAt(s, i).error <= k
    decreases |s| - i
  {
    if i < k && (IsSpace(s[i]) || (IsHexDigit(s[i]) && i + 1 < k && IsHexDigit(s[i + 1]))) {
      if IsSpace(s[i]) {
        FromHexAtRejects(s, i + 1, k);
      } else {
        FromHexAtRejects(s, i + 2, k);
      }
    }
  }

  /**
   * A character that is neither whitespace nor a hexadecimal digit makes
   * bytearray.fromhex fail; in an all-ASCII string the reported position is at
   * or before that character.
   */
  lemma FromHexRejects(s: string, k: nat)
    requires k < |s| && !IsSpace(s[k]) && !IsHexDigit(s[k])
    ensures FromHex(s).Err?
    ensures FirstNonAscii(s) == |s| ==> FromHex(s).error <= k
  {
    if FirstNonAscii(s) == |s| {
      FromHexAtRejects(s, 0, k);
    }
  }
}
