/**
  The ordering key of a file: the timestamp written in the first 19 characters of
  its base name, laid out as Go's reference time `2006-01-02_15.04.05`
  (`YYYY-MM-DD_hh.mm.ss`). Go's `time.Parse` is modelled as a fixed-position
  shape check followed by the range and calendar checks it performs; the
  parsed value is a 6-tuple, compared lexicographically, which is how
  `Time.After` orders UTC times that carry no zone and no fraction.
 */
module Timestamp {
  import opened Wrappers
  import Paths

  /** The Go layout the prefix is parsed against. */
  const Layout: string := "2006-01-02_15.04.05"
  /** Number of leading base-name characters that hold the timestamp. */
  const LayoutLength: nat := 19

  datatype Time = Time(year: int, month: int, day: int, hour: int, minute: int, second: int)

  datatype TimeError =
    | PathTooShort(filename: string)  // "Convertion failed, path too short <filename>"
    | BadTimestamp(value: string)     // a diagnostic of time.Parse about `value`

  predicate IsLeapYear(year: int) {
    year % 4 == 0 && (year % 100 != 0 || year % 400 == 0)
  }

  /** Days in `month` (1..12) of `year`, by the proleptic Gregorian calendar Go uses. */
  function DaysIn(month: int, year: int): (r: int)
    requires 1 <= month <= 12
    ensures 28 <= r <= 31
    ensures r == 29 <==> month == 2 && IsLeapYear(year)
  {
    if month == 2 then (if IsLeapYear(year) then 29 else 28)
    else if month == 4 || month == 6 || month == 9 || month == 11 then 30
    else 31
  }

  /** The checks `time.Parse` makes on the numbers it has read. */
  predicate IsValid(t: Time) {
    && 0 <= t.year <= 9999
    && 1 <= t.month <= 12
    && 1 <= t.day <= DaysIn(t.month, t.year)
    && 0 <= t.hour < 24
    && 0 <= t.minute < 60
    && 0 <= t.second < 60
  }

  predicate IsDigit(c: char) {
    '0' <= c <= '9'
  }

  function DigitValue(c: char): (d: nat)
    requires IsDigit(c)
    ensures d < 10
  {
    c as int - '0' as int
  }

  function DigitChar(d: nat): (c: char)
    requires d < 10
    ensures IsDigit(c) && DigitValue(c) == d
  {
    ('0' as int + d) as char
  }

  predicate AllDigits(s: string) {
    forall i :: 0 <= i < |s| ==> IsDigit(s[i])
  }

  /** The decimal number written by the digit string `s`. */
  function Number(s: string): (n: nat)
    requires AllDigits(s)
  {
    if s == [] then 0 else Number(s[..|s| - 1]) * 10 + DigitValue(s[|s| - 1])
  }

  /** Positions of the separators in the layout. */
  predicate IsSeparatorPosition(i: int) {
    i == 4 || i == 7 || i == 10 || i == 13 || i == 16
  }

  /** `s` has the layout's shape: 19 characters, '-', '-', '_', '.', '.' at the separator positions, digits elsewhere. */
  predicate HasLayoutShape(s: string) {
    && |s| == LayoutLength
    && s[4] == '-' && s[7] == '-' && s[10] == '_' && s[13] == '.' && s[16] == '.'
    && forall i :: 0 <= i < |s| && !IsSeparatorPosition(i) ==> IsDigit(s[i])
  }

  /** The field at `s[lo..hi]` of a string of the layout's shape. */
  function Field(s: string, lo: nat, hi: nat): nat
    requires HasLayoutShape(s)
    requires hi <= 19 && lo <= hi
    requires forall i :: lo <= i < hi ==> !IsSeparatorPosition(i)
  {
    Number(s[lo..hi])
  }

  /** The numbers a string of the layout's shape spells, before any range check. */
  function Fields(s: string): Time
    requires HasLayoutShape(s)
  {
    Time(Field(s, 0, 4), Field(s, 5, 7), Field(s, 8, 10), Field(s, 11, 13), Field(s, 14, 16), Field(s, 17, 19))
  }

  /** `time.Parse(Layout, s)` for the UTC layout above. */
  function ParseLayout(s: string): (r: Result<Time, TimeError>)
    ensures r.Ok? <==> HasLayoutShape(s) && IsValid(Fields(s))
    ensures r.Ok? ==> IsValid(r.value)
    ensures r.Err? ==> r.error == BadTimestamp(s)
  {
    if HasLayoutShape(s) && IsValid(Fields(s)) then Ok(Fields(s)) else Err(BadTimestamp(s))
  }

  /**
    `convertPathToTime`: the time encoded in the first 19 characters of the base
    name of `path`; a base name shorter than that is refused before parsing.
   */
  function ConvertPathToTime(path: string): (r: Result<Time, TimeError>)
    ensures |Paths.Base(path)| < LayoutLength ==> r == Err(PathTooShort(Paths.Base(path)))
    ensures |Paths.Base(path)| >= LayoutLength ==> r == ParseLayout(Paths.Base(path)[..LayoutLength])
    ensures r.Ok? ==> IsValid(r.value)
  {
    var filename := Paths.Base(path);
    if |filename| < LayoutLength then Err(PathTooShort(filename))
    else ParseLayout(filename[..LayoutLength])
  }

  /** `Time.After`: `a` is strictly later than `b`. */
  predicate After(a: Time, b: Time): (r: bool)
    ensures r ==> a != b
  {
    if a.year != b.year then a.year > b.year
    else if a.month != b.month then a.month > b.month
    else if a.day != b.day then a.day > b.day
    else if a.hour != b.hour then a.hour > b.hour
    else if a.minute != b.minute then a.minute > b.minute
    else a.second > b.second
  }

  /** `After` is a strict total order: irreflexive, transitive, and any two distinct times are related. */
  lemma AfterIsStrictTotalOrder(a: Time, b: Time, c: Time)
    ensures !After(a, a)
    ensures After(a, b) && After(b, c) ==> After(a, c)
    ensures a != b ==> After(a, b) || After(b, a)
    ensures After(a, b) ==> !After(b, a)
  {
  }

  /** "Not after" chains: the relation that sorted output respects is transitive. */
  lemma NotAfterTransitive(a: Time, b: Time, c: Time)
    ensures !After(a, b) && !After(b, c) ==> !After(a, c)
  {
  }

  /**
    A count of seconds in which every month has 31 days: not the Unix time,
    but it numbers valid times in the order the clock reaches them.
   */
  function Ordinal(t: Time): int {
    ((((t.year * 12 + (t.month - 1)) * 31 + (t.day - 1)) * 24 + t.hour) * 60 + t.minute) * 60 + t.second
  }

  /** A mixed-radix digit: a higher place decides unless it is equal. */
  lemma Radix(x1: int, y1: int, x2: int, y2: int, base: int)
    requires 0 <= y1 < base && 0 <= y2 < base
    ensures x1 * base + y1 > x2 * base + y2 <==> x1 > x2 || (x1 == x2 && y1 > y2)
    ensures x1 * base + y1 == x2 * base + y2 <==> x1 == x2 && y1 == y2
  {
    if x1 > x2 {
      MultipleAtLeast(x1 - x2, base);
      assert x1 * base == x2 * base + (x1 - x2) * base;
    } else if x1 < x2 {
      MultipleAtLeast(x2 - x1, base);
      assert x2 * base == x1 * base + (x2 - x1) * base;
    }
  }

  lemma {:induction false} MultipleAtLeast(d: int, base: int)
    requires d >= 1 && base >= 0
    ensures d * base >= base
  {
    if d > 1 {
      MultipleAtLeast(d - 1, base);
      assert d * base == (d - 1) * base + base;
    }
  }

  /** For valid times, `After` is the order of the instants: the later one has the larger count of seconds. */
  lemma AfterIsLaterOrdinal(a: Time, b: Time)
    requires IsValid(a) && IsValid(b)
    ensures After(a, b) <==> Ordinal(a) > Ordinal(b)
  {
    var a1, b1 := a.year * 12 + (a.month - 1), b.year * 12 + (b.month - 1);
    var a2, b2 := a1 * 31 + (a.day - 1), b1 * 31 + (b.day - 1);
    var a3, b3 := a2 * 24 + a.hour, b2 * 24 + b.hour;
    var a4, b4 := a3 * 60 + a.minute, b3 * 60 + b.minute;
    Radix(a.year, a.month - 1, b.year, b.month - 1, 12);
    Radix(a1, a.day - 1, b1, b.day - 1, 31);
    Radix(a2, a.hour, b2, b.hour, 24);
    Radix(a3, a.minute, b3, b.minute, 60);
    Radix(a4, a.second, b4, b.second, 60);
  }

  /** A time spelled back in the layout. */
  function Pad2(n: nat): (s: string)
    requires n < 100
    ensures |s| == 2 && AllDigits(s)
  {
    [DigitChar(n / 10), DigitChar(n % 10)]
  }

  function Pad4(n: nat): (s: string)
    requires n < 10000
    ensures |s| == 4 && AllDigits(s)
  {
    Pad2(n / 100) + Pad2(n % 100)
  }

  function Format(t: Time): (s: string)
    requires IsValid(t)
  {
    Pad4(t.year) + "-" + Pad2(t.month) + "-" + Pad2(t.day) + "_"
      + Pad2(t.hour) + "." + Pad2(t.minute) + "." + Pad2(t.second)
  }

  lemma Number2(s: string)
    requires |s| == 2 && AllDigits(s)
    ensures Number(s) == DigitValue(s[0]) * 10 + DigitValue(s[1])
  {
    var first := s[..1];
    assert first[..0] == [] && first[0] == s[0];
    assert Number(first) == DigitValue(s[0]);
  }

  lemma Number4(s: string)
    requires |s| == 4 && AllDigits(s)
    ensures Number(s) == Number(s[..2]) * 100 + Number(s[2..])
  {
    var a, b := s[..2], s[2..];
    assert s[..3] == a + [s[2]];
    assert s[..3][..2] == a;
    Number2(a);
    Number2(b);
    assert s[..2][..1][..0] == [];
  }

  lemma Pad2Number(n: nat)
    requires n < 100
    ensures Number(Pad2(n)) == n
  {
    Number2(Pad2(n));
  }

  lemma Pad4Number(n: nat)
    requires n < 10000
    ensures Number(Pad4(n)) == n
  {
    var s := Pad4(n);
    Number4(s);
    assert s[..2] == Pad2(n / 100) && s[2..] == Pad2(n % 100);
    Pad2Number(n / 100);
    Pad2Number(n % 100);
  }

  lemma NumberPad2(s: string)
    requires |s| == 2 && AllDigits(s)
    ensures Number(s) < 100 && Pad2(Number(s)) == s
  {
    Number2(s);
    var n := Number(s);
    assert n / 10 == DigitValue(s[0]) && n % 10 == DigitValue(s[1]);
  }

  lemma NumberPad4(s: string)
    requires |s| == 4 && AllDigits(s)
    ensures Number(s) < 10000 && Pad4(Number(s)) == s
  {
    Number4(s);
    NumberPad2(s[..2]);
    NumberPad2(s[2..]);
    var n := Number(s);
    assert n / 100 == Number(s[..2]) && n % 100 == Number(s[2..]);
    assert s == s[..2] + s[2..];
  }

  /** The layout spelling of a valid time has the layout's shape, with each field's padded number in its place. */
  lemma FormatShape(t: Time)
    requires IsValid(t)
    ensures var s := Format(t);
      && HasLayoutShape(s)
      && s[0..4] == Pad4(t.year) && s[5..7] == Pad2(t.month) && s[8..10] == Pad2(t.day)
      && s[11..13] == Pad2(t.hour) && s[14..16] == Pad2(t.minute) && s[17..19] == Pad2(t.second)
  {
    var s := Format(t);
    assert s[0..4] == Pad4(t.year);
    assert s[5..7] == Pad2(t.month);
    assert s[8..10] == Pad2(t.day);
    assert s[11..13] == Pad2(t.hour);
    assert s[14..16] == Pad2(t.minute);
    assert s[17..19] == Pad2(t.second);
    forall i | 0 <= i < |s| && !IsSeparatorPosition(i)
      ensures IsDigit(s[i])
    {
      if i < 4 { assert s[i] == s[0..4][i]; }
      else if i < 7 { assert s[i] == s[5..7][i - 5]; }
      else if i < 10 { assert s[i] == s[8..10][i - 8]; }
      else if i < 13 { assert s[i] == s[11..13][i - 11]; }
      else if i < 16 { assert s[i] == s[14..16][i - 14]; }
      else { assert s[i] == s[17..19][i - 17]; }
    }
  }

  /** Formatting a valid time and parsing it back gives the same time. */
  lemma ParseFormat(t: Time)
    requires IsValid(t)
    ensures ParseLayout(Format(t)) == Ok(t)
  {
    FormatShape(t);
    Pad4Number(t.year);
    Pad2Number(t.month);
    Pad2Number(t.day);
    Pad2Number(t.hour);
    Pad2Number(t.minute);
    Pad2Number(t.second);
    assert Fields(Format(t)) == t;
  }

  /** Whatever parses is exactly the layout spelling of the time it yields: parsing is injective. */
  lemma FormatParse(s: string)
    requires ParseLayout(s).Ok?
    ensures Format(ParseLayout(s).value) == s
  {
    var t := Fields(s);
    forall lo, hi | (lo, hi) in [(0, 4), (5, 7), (8, 10), (11, 13), (14, 16), (17, 19)]
      ensures AllDigits(s[lo..hi])
    {
      forall i | 0 <= i < hi - lo ensures IsDigit(s[lo..hi][i]) {
        assert s[lo..hi][i] == s[lo + i];
        assert !IsSeparatorPosition(lo + i);
      }
    }
    NumberPad4(s[0..4]);
    NumberPad2(s[5..7]);
    NumberPad2(s[8..10]);
    NumberPad2(s[11..13]);
    NumberPad2(s[14..16]);
    NumberPad2(s[17..19]);
    var f := Format(t);
    assert |f| == 19;
    forall i | 0 <= i < 19 ensures f[i] == s[i] {
      if i < 4 { assert f[i] == s[0..4][i]; }
      else if i < 5 { }
      else if i < 7 { assert f[i] == s[5..7][i - 5]; }
      else if i < 8 { }
      else if i < 10 { assert f[i] == s[8..10][i - 8]; }
      else if i < 11 { }
      else if i < 13 { assert f[i] == s[11..13][i - 11]; }
      else if i < 14 { }
      else if i < 16 { assert f[i] == s[14..16][i - 14]; }
      else if i < 17 { }
      else { assert f[i] == s[17..19][i - 17]; }
    }
  }

  /** Directory components never influence the key of a file. */
  lemma KeyIgnoresDirectory(dir: string, name: string)
    requires name != [] && Paths.Separator !in name
    requires dir == [] || dir[|dir| - 1] == Paths.Separator
    ensures ConvertPathToTime(dir + name) == ConvertPathToTime(name)
  {
    Paths.BaseOfName(dir, name);
    Paths.BaseOfName([], name);
    assert [] + name == name;
  }

  /** Only the first 19 characters of the base name matter: two paths whose base names share them have the same key. */
  lemma KeyDependsOnPrefixOnly(p: string, q: string)
    requires |Paths.Base(p)| >= LayoutLength && |Paths.Base(q)| >= LayoutLength
    requires Paths.Base(p)[..LayoutLength] == Paths.Base(q)[..LayoutLength]
    ensures ConvertPathToTime(p) == ConvertPathToTime(q)
  {
  }

  lemma ExamplePads()
    ensures Pad4(2024) == "2024" && Pad2(1) == "01" && Pad2(10) == "10" && Pad2(0) == "00"
  {
    assert Pad2(20) == "20" && Pad2(24) == "24";
  }

  lemma ExampleFormat()
    ensures Format(Time(2024, 1, 1, 10, 0, 0)) == "2024-01-01_10.00.00"
  {
    ExamplePads();
    calc {
      Format(Time(2024, 1, 1, 10, 0, 0));
      "2024" + "-" + "01" + "-" + "01" + "_" + "10" + "." + "00" + "." + "00";
    }
  }

  /** The file of the worked example parses to 2024-01-01 10:00:00. */
  lemma ExampleKey()
    ensures ConvertPathToTime("2024-01-01_10.00.00_a.txt") == Ok(Time(2024, 1, 1, 10, 0, 0))
  {
    var name := "2024-01-01_10.00.00_a.txt";
    ExampleFormat();
    ParseFormat(Time(2024, 1, 1, 10, 0, 0));
    assert name[..LayoutLength] == "2024-01-01_10.00.00";
    assert Paths.Separator !in name;
    Paths.BaseOfName([], name);
    assert [] + name == name;
  }
}
