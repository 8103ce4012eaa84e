/**
  The line `outputMap` prints for each member of a sorted group: the
  checksum as eight lower-case hexadecimal digits (`%08x`), the member's
  1-based rank in decimal (`%d`) and its path, separated by ';' and ended
  by a newline. Beside the formatter, a parser for such lines and the two
  round trips that show the format loses nothing.
 */
module ReportFormat {
  import opened Wrappers
  import opened Timestamp

  /** Go's `uint32`, the type of a CRC-32 checksum. */
  newtype Checksum = x: int | 0 <= x < 0x1_0000_0000

  const FieldSeparator: char := ';'

  /** `%08x` pads to eight digits; a 32-bit checksum never needs more. */
  const HexWidth: nat := 8

  predicate IsHexDigit(c: char) {
    '0' <= c <= '9' || 'a' <= c <= 'f'
  }

  predicate AllHex(s: string) {
    forall i :: 0 <= i < |s| ==> IsHexDigit(s[i])
  }

  function HexDigitValue(c: char): (d: nat)
    requires IsHexDigit(c)
    ensures d < 16
  {
    if c <= '9' then c as int - '0' as int else c as int - 'a' as int + 10
  }

  /** The lower-case hexadecimal digit for `d`, as Go's `%x` writes it. */
  function HexDigitChar(d: nat): (c: char)
    requires d < 16
    ensures IsHexDigit(c) && HexDigitValue(c) == d
  {
    if d < 10 then ('0' as int + d) as char else ('a' as int + d - 10) as char
  }

  function Pow16(k: nat): (r: nat)
    ensures r >= 1
  {
    if k == 0 then 1 else 16 * Pow16(k - 1)
  }

  /** The number written by the hexadecimal digit string `s`. */
  function HexValue(s: string): (n: nat)
    requires AllHex(s)
  {
    if s == [] then 0 else HexValue(s[..|s| - 1]) * 16 + HexDigitValue(s[|s| - 1])
  }

  /** The low `width` hexadecimal digits of `n`, most significant first, zero-padded on the left. */
  function HexDigits(n: nat, width: nat): (r: string)
    ensures |r| == width && AllHex(r)
  {
    if width == 0 then [] else HexDigits(n / 16, width - 1) + [HexDigitChar(n % 16)]
  }

  lemma {:induction false} HexDigitsValue(n: nat, width: nat)
    requires n < Pow16(width)
    ensures HexValue(HexDigits(n, width)) == n
  {
    if width > 0 {
      var r := HexDigits(n, width);
      assert r[..width - 1] == HexDigits(n / 16, width - 1);
      assert n / 16 < Pow16(width - 1);
      HexDigitsValue(n / 16, width - 1);
    }
  }

  lemma {:induction false} HexValueBound(s: string)
    requires AllHex(s)
    ensures HexValue(s) < Pow16(|s|)
  {
    if s != [] {
      HexValueBound(s[..|s| - 1]);
    }
  }

  lemma {:induction false} HexDigitsOfValue(s: string)
    requires AllHex(s)
    ensures HexDigits(HexValue(s), |s|) == s
  {
    if s != [] {
      var init, d := s[..|s| - 1], HexDigitValue(s[|s| - 1]);
      var n := HexValue(s);
      assert n == HexValue(init) * 16 + d;
      assert n / 16 == HexValue(init) && n % 16 == d;
      HexDigitsOfValue(init);
      assert s == init + [s[|s| - 1]];
    }
  }

  lemma Pow16Width()
    ensures Pow16(HexWidth) == 0x1_0000_0000
  {
  }

  /** `%08x` of a checksum: eight lower-case hexadecimal digits whose value is the checksum. */
  function Hex8(c: Checksum): (r: string)
    ensures |r| == HexWidth && AllHex(r)
    ensures HexValue(r) == c as nat
  {
    Pow16Width();
    HexDigitsValue(c as nat, HexWidth);
    HexDigits(c as nat, HexWidth)
  }

  /** `%d` of a natural number: its shortest decimal form, "0" for zero. */
  function Decimal(n: nat): (r: string)
    ensures r != [] && AllDigits(r)
    ensures Number(r) == n
    ensures r[0] == '0' ==> n == 0 && |r| == 1
  {
    if n < 10 then [DigitChar(n)]
    else
      var r := Decimal(n / 10) + [DigitChar(n % 10)];
      assert r[..|r| - 1] == Decimal(n / 10);
      r
  }

  /** A digit string without a superfluous leading zero: the only form `%d` writes. */
  predicate IsCanonicalDecimal(s: string) {
    s != [] && AllDigits(s) && (s[0] == '0' ==> |s| == 1)
  }

  lemma {:induction false} NumberPositive(s: string)
    requires s != [] && AllDigits(s) && s[0] != '0'
    ensures Number(s) >= 1
  {
    if |s| > 1 {
      NumberPositive(s[..|s| - 1]);
    }
  }

  lemma {:induction false} DecimalOfNumber(s: string)
    requires IsCanonicalDecimal(s)
    ensures Decimal(Number(s)) == s
  {
    if |s| > 1 {
      var init, d := s[..|s| - 1], DigitValue(s[|s| - 1]);
      NumberPositive(init);
      var n := Number(s);
      assert n == Number(init) * 10 + d;
      assert n / 10 == Number(init) && n % 10 == d;
      assert n >= 10;
      DecimalOfNumber(init);
      assert s == init + [s[|s| - 1]];
    }
  }

  /** One line of the report, as `outputMap` prints it. */
  datatype ReportLine = ReportLine(checksum: Checksum, rank: nat, path: string)

  /** The text `fmt.Printf("%08x;%d;%s\n", checkSum, rank, path)` writes. */
  function FormatLine(line: ReportLine): (r: string)
    ensures |r| >= |line.path| + HexWidth + 4 && r[|r| - 1] == '\n'
    ensures r[..HexWidth] == Hex8(line.checksum) && r[HexWidth] == FieldSeparator
  {
    var r := Hex8(line.checksum) + [FieldSeparator] + Decimal(line.rank) + [FieldSeparator] + line.path + ['\n'];
    assert r[..HexWidth] == Hex8(line.checksum);
    r
  }

  /** The number of leading decimal digits of `s`. */
  function DigitRun(s: string): (k: nat)
    ensures k <= |s| && AllDigits(s[..k])
    ensures k < |s| ==> !IsDigit(s[k])
  {
    if s == [] || !IsDigit(s[0]) then 0
    else
      var k := 1 + DigitRun(s[1..]);
      assert s[..k] == [s[0]] + s[1..][..k - 1];
      k
  }

  /** The printed form of a line whose fields are written by `hex` and `dec`. */
  lemma FormatParts(hex: string, dec: string, path: string)
    requires |hex| == HexWidth && AllHex(hex) && IsCanonicalDecimal(dec)
    ensures HexValue(hex) < 0x1_0000_0000
    ensures FormatLine(ReportLine(HexValue(hex) as Checksum, Number(dec), path))
      == hex + [FieldSeparator] + dec + [FieldSeparator] + path + ['\n']
  {
    HexValueBound(hex);
    Pow16Width();
    HexDigitsOfValue(hex);
    DecimalOfNumber(dec);
  }

  /** A line cut at position `HexWidth` and at position `k` of the text between it and the final newline. */
  lemma SplitAround(text: string, k: nat)
    requires HexWidth < |text| && text[HexWidth] == FieldSeparator && text[|text| - 1] == '\n'
    requires k < |text| - HexWidth - 2 && text[HexWidth + 1 + k] == FieldSeparator
    ensures var rest := text[HexWidth + 1..|text| - 1];
      text == text[..HexWidth] + [FieldSeparator] + rest[..k] + [FieldSeparator] + rest[k + 1..] + ['\n']
  {
    var rest := text[HexWidth + 1..|text| - 1];
    assert rest == rest[..k] + [FieldSeparator] + rest[k + 1..];
    assert text == text[..HexWidth] + [FieldSeparator] + rest + ['\n'];
  }

  /**
    Reads a report line back: eight hexadecimal digits, ';', a canonical
    decimal rank, ';', and the path up to the final newline. The path may
    itself hold ';' or newlines; the rank, made of digits only, ends at the
    first ';' after it.
   */
  function ParseLine(text: string): (r: Option<ReportLine>)
    ensures r.Some? ==> FormatLine(r.value) == text
  {
    if |text| < HexWidth + 1 || text[|text| - 1] != '\n' || !AllHex(text[..HexWidth]) || text[HexWidth] != FieldSeparator then None
    else
      var rest := text[HexWidth + 1..|text| - 1];
      var k := DigitRun(rest);
      if k == |rest| || rest[k] != FieldSeparator || !IsCanonicalDecimal(rest[..k]) then None
      else
        var hex, dec, path := text[..HexWidth], rest[..k], rest[k + 1..];
        FormatParts(hex, dec, path);
        SplitAround(text, k);
        Some(ReportLine(HexValue(hex) as Checksum, Number(dec), path))
  }

  /** A line assembled from an eight-digit hexadecimal field, a canonical decimal field and a path reads back as those fields. */
  lemma ParseParts(hex: string, dec: string, path: string)
    requires |hex| == HexWidth && AllHex(hex) && IsCanonicalDecimal(dec)
    ensures HexValue(hex) < 0x1_0000_0000
    ensures ParseLine(hex + [FieldSeparator] + dec + [FieldSeparator] + path + ['\n'])
      == Some(ReportLine(HexValue(hex) as Checksum, Number(dec), path))
  {
    HexValueBound(hex);
    Pow16Width();
    var text := hex + [FieldSeparator] + dec + [FieldSeparator] + path + ['\n'];
    var rest := dec + [FieldSeparator] + path;
    assert text[..HexWidth] == hex && text[HexWidth] == FieldSeparator && text[HexWidth + 1..|text| - 1] == rest by {
      assert text == hex + [FieldSeparator] + rest + ['\n'];
    }
    DigitRunOfDecimal(dec, path);
    assert rest[..|dec|] == dec && rest[|dec| + 1..] == path;
  }

  /** Every line the report prints reads back as the checksum, rank and path it was printed from. */
  lemma ParseFormatLine(line: ReportLine)
    ensures ParseLine(FormatLine(line)) == Some(line)
  {
    var hex, dec := Hex8(line.checksum), Decimal(line.rank);
    ParseParts(hex, dec, line.path);
  }

  lemma DigitRunOfDecimal(dec: string, tail: string)
    requires AllDigits(dec)
    ensures DigitRun(dec + [FieldSeparator] + tail) == |dec|
  {
    var s := dec + [FieldSeparator] + tail;
    assert s[|dec|] == FieldSeparator;
    assert s[..|dec|] == dec;
  }
}
