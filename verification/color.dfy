/**
 * Colour output (color.h): a colour component becomes a byte by scaling with
 * 255.999, truncating toward zero and clamping to [0, 255]; `write_color`
 * prints the three bytes of a pixel as decimal integers separated by single
 * spaces and ended by a newline.
 *
 * The text form is given a reader here, so that the line can be shown to
 * carry the three bytes back.
 */
module Colors {
  import opened Numbers
  import opened Vectors
  import opened Hits

  /** `uint8_t`. */
  type byte = b: int | 0 <= b < 256

  /** `std::clamp((int)(255.999 * c), 0, 255)`: components at or below 0 give
      0 and components at or above 1 give 255. */
  function ToByte(c: real): (b: byte)
    ensures c <= 0.0 ==> b == 0
    ensures 1.0 <= c ==> b == 255
  {
    Clamp(Trunc(255.999 * c), 0, 255)
  }

  /** Inside [0, 1) the byte is the whole part of 255.999 c, so each of the
      256 bytes covers a slice of width 1/255.999 of the unit interval. */
  lemma ToByteInterior(c: real)
    requires 0.0 <= c < 1.0
    ensures ToByte(c) as real <= 255.999 * c < ToByte(c) as real + 1.0
  {
  }

  /** A larger component never gives a smaller byte. */
  lemma ToByteMonotone(c: real, d: real)
    requires c <= d
    ensures ToByte(c) <= ToByte(d)
  {
    TruncMonotone(255.999 * c, 255.999 * d);
  }

  /** The end points: 0 gives 0 and 1 gives 255. */
  lemma ToByteEnds()
    ensures ToByte(0.0) == 0 && ToByte(1.0) == 255
  {
  }

  // ------------------------------------------------------------ decimal text

  predicate IsDigit(ch: char) {
    '0' <= ch <= '9'
  }

  /** The characters that end a field of the output line. */
  predicate IsSeparator(ch: char) {
    ch == ' ' || ch == '\n'
  }

  /** A non-empty run of decimal digits. */
  predicate IsNumeral(s: string) {
    |s| > 0 && forall k :: 0 <= k < |s| ==> IsDigit(s[k])
  }

  function DigitChar(d: nat): (ch: char)
    requires d < 10
    ensures IsDigit(ch) && (ch as int) - ('0' as int) == d
  {
    (('0' as int) + d) as char
  }

  /** The decimal numeral of n, as `operator<<` prints an `int`: no sign, no
      leading zeros. */
  function Decimal(n: nat): (s: string)
    ensures IsNumeral(s)
    ensures n > 0 ==> s[0] != '0'
    decreases n
  {
    if n < 10 then [DigitChar(n)] else Decimal(n / 10) + [DigitChar(n % 10)]
  }

  function DigitValue(ch: char): (d: nat)
    requires IsDigit(ch)
    ensures d < 10 && DigitChar(d) == ch
  {
    (ch as int) - ('0' as int)
  }

  /** The value of a run of decimal digits. */
  function NumeralValue(s: string): nat
    requires forall k :: 0 <= k < |s| ==> IsDigit(s[k])
    decreases |s|
  {
    if s == [] then 0 else NumeralValue(s[..|s| - 1]) * 10 + DigitValue(s[|s| - 1])
  }

  /** Reading a printed numeral gives the number back. */
  lemma {:induction false} DecimalRoundTrip(n: nat)
    ensures NumeralValue(Decimal(n)) == n
    decreases n
  {
    if n >= 10 {
      DecimalRoundTrip(n / 10);
      assert Decimal(n)[..|Decimal(n)| - 1] == Decimal(n / 10);
    }
  }

  // ------------------------------------------------------------ write_color

  /** `write_color`: the line "r g b\n" of the pixel's three bytes. */
  function WriteColor(pixel: Vec3): string {
    Decimal(ToByte(pixel.x)) + " " + Decimal(ToByte(pixel.y)) + " " + Decimal(ToByte(pixel.z)) + "\n"
  }

  /** The position of the first separator at or after i, or the end. */
  function FieldEnd(s: string, i: nat): (k: nat)
    requires i <= |s|
    ensures i <= k <= |s|
    ensures forall j :: i <= j < k ==> !IsSeparator(s[j])
    ensures k < |s| ==> IsSeparator(s[k])
    decreases |s| - i
  {
    if i == |s| || IsSeparator(s[i]) then i else FieldEnd(s, i + 1)
  }

  /** The fields of a line: the runs between separators, each separator
      ending one field. */
  function Fields(s: string): seq<string>
    decreases |s|
  {
    if s == [] then []
    else
      var k := FieldEnd(s, 0);
      if k == |s| then [s] else [s[..k]] + Fields(s[k + 1..])
  }

  /** Reading a line back: three numeral fields give the three numbers. */
  function ReadColor(line: string): Option<(nat, nat, nat)> {
    var f := Fields(line);
    if |f| == 3 && IsNumeral(f[0]) && IsNumeral(f[1]) && IsNumeral(f[2]) then
      Some((NumeralValue(f[0]), NumeralValue(f[1]), NumeralValue(f[2])))
    else None
  }

  /** A numeral followed by a separator is one field. */
  lemma FieldsOfNumeral(d: string, sep: char, rest: string)
    requires IsNumeral(d) && IsSeparator(sep)
    ensures Fields(d + [sep] + rest) == [d] + Fields(rest)
  {
    var s := d + [sep] + rest;
    var k := FieldEnd(s, 0);
    assert s[|d|] == sep;
    assert k == |d|;
    assert s[..k] == d && s[k + 1..] == rest;
  }

  /** The printed line holds exactly three fields, the three numerals. */
  lemma WriteColorFields(pixel: Vec3)
    ensures Fields(WriteColor(pixel)) == [Decimal(ToByte(pixel.x)), Decimal(ToByte(pixel.y)), Decimal(ToByte(pixel.z))]
  {
    var r, g, b := Decimal(ToByte(pixel.x)), Decimal(ToByte(pixel.y)), Decimal(ToByte(pixel.z));
    assert WriteColor(pixel) == r + [' '] + (g + [' '] + (b + ['\n'] + []));
    FieldsOfNumeral(b, '\n', []);
    FieldsOfNumeral(g, ' ', b + ['\n'] + []);
    FieldsOfNumeral(r, ' ', g + [' '] + (b + ['\n'] + []));
  }

  /** Reading the printed line gives back the pixel's three bytes. */
  lemma WriteColorRoundTrip(pixel: Vec3)
    ensures ReadColor(WriteColor(pixel)) == Some((ToByte(pixel.x) as nat, ToByte(pixel.y) as nat, ToByte(pixel.z) as nat))
  {
    WriteColorFields(pixel);
    DecimalRoundTrip(ToByte(pixel.x));
    DecimalRoundTrip(ToByte(pixel.y));
    DecimalRoundTrip(ToByte(pixel.z));
  }
}
