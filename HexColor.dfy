/** Colours written as hex strings: `Color.init(hex:)` and the integer
    formatting step of `Color.toHex()` (NepalCompass/SettingsView.swift).
    A colour is held as its four 8-bit channels, the integers the decoder
    computes before dividing by 255 and the integers `toHex` formats after
    rounding. */
module HexColor {
  import opened Wrappers
  import Strings

  /** Alpha, red, green and blue, each in 0..255 for every colour the decoder
      builds. */
  datatype Color = Color(alpha: nat, red: nat, green: nat, blue: nat)

  /** The colour of a string of the wrong length: opaque black. */
  const Black: Color := Color(255, 0, 0, 0)

  /** The largest `UInt64`, where the scanner stops on overflow. */
  const UInt64Max: nat := 0xFFFF_FFFF_FFFF_FFFF

  // ------------------------------------------------------------ hex digits

  predicate IsHexDigit(c: char)
  {
    ('0' <= c <= '9') || ('a' <= c <= 'f') || ('A' <= c <= 'F')
  }

  /** The digits `%lX` writes: decimal digits and upper-case letters. */
  predicate IsUpperHexDigit(c: char)
  {
    ('0' <= c <= '9') || ('A' <= c <= 'F')
  }

  predicate AllHex(s: string)
  {
    forall i :: 0 <= i < |s| ==> IsHexDigit(s[i])
  }

  predicate AllUpperHex(s: string)
  {
    forall i :: 0 <= i < |s| ==> IsUpperHexDigit(s[i])
  }

  function DigitValue(c: char): (d: nat)
    requires IsHexDigit(c)
    ensures d < 16
  {
    if '0' <= c <= '9' then c as int - '0' as int
    else if 'a' <= c <= 'f' then c as int - 'a' as int + 10
    else c as int - 'A' as int + 10
  }

  function UpperHexDigit(d: nat): (c: char)
    requires d < 16
    ensures IsUpperHexDigit(c) && IsHexDigit(c) && DigitValue(c) == d
  {
    if d < 10 then ('0' as int + d) as char else ('A' as int + d - 10) as char
  }

  /** Upper-case digits are the only ones `UpperHexDigit` writes, each for its
      own value. */
  lemma UpperHexDigitOfValue(c: char)
    requires IsUpperHexDigit(c)
    ensures UpperHexDigit(DigitValue(c)) == c
  {
  }

  function Pow16(n: nat): (p: nat)
    ensures p >= 1
  {
    if n == 0 then 1 else 16 * Pow16(n - 1)
  }

  /** The number a string of hex digits denotes, most significant first. */
  function HexValue(s: string): (v: nat)
    requires AllHex(s)
    ensures v < Pow16(|s|)
  {
    if s == [] then 0
    else
      assert AllHex(s[..|s| - 1]);
      HexValue(s[..|s| - 1]) * 16 + DigitValue(s[|s| - 1])
  }

  /** One more digit shifts the value up one place. */
  lemma HexValueSnoc(s: string, c: char)
    requires AllHex(s) && IsHexDigit(c)
    ensures AllHex(s + [c])
    ensures HexValue(s + [c]) == HexValue(s) * 16 + DigitValue(c)
  {
    assert (s + [c])[..|s|] == s;
  }

  /** Two more digits shift the value up one byte. */
  lemma HexValueByte(s: string, b: string)
    requires AllHex(s) && AllHex(b) && |b| == 2
    ensures AllHex(s + b)
    ensures HexValue(s + b) == HexValue(s) * 0x100 + HexValue(b)
    ensures HexValue(b) < 0x100
  {
    assert IsHexDigit(b[0]) && IsHexDigit(b[1]);
    HexValueSnoc(s, b[0]);
    HexValueSnoc(s + [b[0]], b[1]);
    assert s + b == s + [b[0]] + [b[1]];
    HexValueSnoc([], b[0]);
    assert [] + [b[0]] == [b[0]];
    HexValueSnoc([b[0]], b[1]);
    assert [b[0]] + [b[1]] == b;
    assert HexValue([]) == 0;
  }

  // ----------------------------------------------------------------- scanner

  /** The characters a `Scanner` skips before a number by default: the
      whitespace of `.whitespaces` and the line breaks. */
  predicate IsScannerSkipped(c: char)
  {
    Strings.IsWhitespace(c) || ('\n' <= c <= '\r') || c == '\U{0085}' || c == '\U{2028}' || c == '\U{2029}'
  }

  function SkipLeading(s: string): (r: string)
    ensures |r| <= |s| && r == s[|s| - |r|..]
    ensures r == [] || !IsScannerSkipped(r[0])
  {
    if s != [] && IsScannerSkipped(s[0]) then SkipLeading(s[1..]) else s
  }

  /** The number of hex digits `s` starts with. */
  function HexPrefixLength(s: string): (n: nat)
    ensures n <= |s| && AllHex(s[..n])
    ensures n < |s| ==> !IsHexDigit(s[n])
  {
    if s != [] && IsHexDigit(s[0]) then
      var n := 1 + HexPrefixLength(s[1..]);
      assert forall i :: 1 <= i < n ==> s[..n][i] == s[1..][..n - 1][i - 1];
      n
    else 0
  }

  /** The digits read after an optional "0x" or "0X". */
  function HexDigitsRead(s: string): (digits: string)
    ensures AllHex(digits)
  {
    var t := SkipLeading(s);
    var u := if |t| >= 2 && t[0] == '0' && (t[1] == 'x' || t[1] == 'X') then t[2..] else t;
    u[..HexPrefixLength(u)]
  }

  /** `Scanner(string: s).scanHexInt64(&int)` starting from `int == 0`: the
      value of the hex digits the scanner reads, or the largest `UInt64` when
      they do not fit; 0 when there are none. */
  function ScanHex(s: string): (v: nat)
    ensures v <= UInt64Max
  {
    var n := HexValue(HexDigitsRead(s));
    if n > UInt64Max then UInt64Max else n
  }

  /** A string of at most sixteen hex digits scans to its value. */
  lemma ScanAllHex(s: string)
    requires AllHex(s) && |s| <= 16
    ensures ScanHex(s) == HexValue(s)
  {
    AllHexRead(s);
    PowBound(|s|);
  }

  /** The scanner reads the whole of a string of hex digits. */
  lemma AllHexRead(s: string)
    requires AllHex(s)
    ensures HexDigitsRead(s) == s
  {
    if s != [] {
      StartsWithHex(s);
      if |s| >= 2 {
        assert IsHexDigit(s[1]);
      }
    }
    AllHexPrefixLength(s);
    assert s[..|s|] == s;
  }

  lemma {:induction false} AllHexPrefixLength(s: string)
    requires AllHex(s)
    ensures HexPrefixLength(s) == |s|
  {
    if s != [] {
      assert IsHexDigit(s[0]);
      assert AllHex(s[1..]) by {
        assert forall i :: 0 <= i < |s[1..]| ==> s[1..][i] == s[i + 1];
      }
      AllHexPrefixLength(s[1..]);
    }
  }

  lemma PowBound(n: nat)
    requires n <= 16
    ensures Pow16(n) <= UInt64Max + 1
  {
    PowMonotone(n, 16);
    assert Pow16(4) == 0x1_0000 by {
      assert Pow16(1) == 16 && Pow16(2) == 0x100 && Pow16(3) == 0x1000;
    }
    assert Pow16(8) == 0x1_0000_0000 by {
      assert Pow16(5) == 0x10_0000 && Pow16(6) == 0x100_0000 && Pow16(7) == 0x1000_0000;
    }
    assert Pow16(12) == 0x1_0000_0000_0000 by {
      assert Pow16(9) == 0x10_0000_0000 && Pow16(10) == 0x100_0000_0000 && Pow16(11) == 0x1000_0000_0000;
    }
    assert Pow16(16) == UInt64Max + 1 by {
      assert Pow16(13) == 0x10_0000_0000_0000 && Pow16(14) == 0x100_0000_0000_0000 && Pow16(15) == 0x1000_0000_0000_0000;
    }
  }

  lemma {:induction false} PowMonotone(m: nat, n: nat)
    requires m <= n
    ensures Pow16(m) <= Pow16(n)
  {
    if m < n {
      PowMonotone(m, n - 1);
    }
  }

  /** The scanner stops at the first character that is not a hex digit: what
      follows it is never read. */
  lemma ScanStopsAtNonHex(s: string, t: string)
    requires AllHex(s) && s != [] && |s| <= 16
    requires t != [] && !IsHexDigit(t[0])
    requires s == "0" ==> t[0] != 'x' && t[0] != 'X'
    ensures ScanHex(s + t) == HexValue(s)
  {
    var st := s + t;
    assert st[..|s|] == s;
    assert st[|s|] == t[0];
    NoPrefixRead(st, |s|);
    PrefixLengthOfHex(st, |s|);
    PowBound(|s|);
  }

  /** A string that starts with a hex digit and not with "0x" is read from
      its first character. */
  lemma NoPrefixRead(s: string, n: nat)
    requires 0 < n < |s| && AllHex(s[..n])
    requires n == 1 && s[0] == '0' ==> s[1] != 'x' && s[1] != 'X'
    ensures HexDigitsRead(s) == s[..HexPrefixLength(s)]
  {
    assert IsHexDigit(s[..n][0]);
    StartsWithHex(s);
    if n >= 2 {
      assert IsHexDigit(s[..n][1]);
    }
  }

  /** Nothing is skipped before a leading hex digit. */
  lemma StartsWithHex(s: string)
    requires s != [] && IsHexDigit(s[0])
    ensures SkipLeading(s) == s
  {
    HexNotSkipped(s[0]);
  }

  lemma HexNotSkipped(c: char)
    requires IsHexDigit(c)
    ensures !IsScannerSkipped(c)
  {
  }

  lemma {:induction false} PrefixLengthOfHex(s: string, n: nat)
    requires n < |s| && AllHex(s[..n]) && !IsHexDigit(s[n])
    ensures HexPrefixLength(s) == n
  {
    if n > 0 {
      assert IsHexDigit(s[..n][0]);
      assert s[1..][..n - 1] == s[..n][1..];
      assert s[1..][n - 1] == s[n];
      PrefixLengthOfHex(s[1..], n - 1);
    }
  }

  // ----------------------------------------------------------------- decoding

  /** `hex.replacingOccurrences(of: "#", with: "")`. */
  function StripHash(hex: string): (h: string)
    ensures '#' !in h
  {
    Strings.Without(hex, '#')
  }

  /** `Color(hex:)`: with six digits left once every '#' is removed, the
      colour is opaque with red, green and blue from the scanned value; with
      eight, alpha comes first; any other count gives opaque black. */
  function FromHex(hex: string): (c: Color)
    ensures c.alpha < 256 && c.red < 256 && c.green < 256 && c.blue < 256
    ensures |StripHash(hex)| != 8 ==> c.alpha == 255
    ensures |StripHash(hex)| != 6 && |StripHash(hex)| != 8 ==> c == Black
  {
    var h := StripHash(hex);
    var v := ScanHex(h);
    if |h| == 6 then
      Color(255, v / 0x1_0000 % 0x100, v / 0x100 % 0x100, v % 0x100)
    else if |h| == 8 then
      Color(v / 0x100_0000 % 0x100, v / 0x1_0000 % 0x100, v / 0x100 % 0x100, v % 0x100)
    else
      Black
  }

  /** Three bytes written one after another, read back with the shifts and
      masks of the decoder. */
  lemma ThreeBytesMasked(v: nat, x: nat, y: nat, z: nat)
    requires x < 0x100 && y < 0x100 && z < 0x100
    requires v == (x * 0x100 + y) * 0x100 + z
    ensures v / 0x1_0000 % 0x100 == x && v / 0x100 % 0x100 == y && v % 0x100 == z
  {
    assert v / 0x100 == x * 0x100 + y;
    assert v / 0x1_0000 == x;
  }

  /** The same with an alpha byte in front. */
  lemma FourBytesMasked(v: nat, w: nat, x: nat, y: nat, z: nat)
    requires w < 0x100 && x < 0x100 && y < 0x100 && z < 0x100
    requires v == ((w * 0x100 + x) * 0x100 + y) * 0x100 + z
    ensures v / 0x100_0000 % 0x100 == w && v / 0x1_0000 % 0x100 == x && v / 0x100 % 0x100 == y && v % 0x100 == z
  {
    assert v / 0x100 == (w * 0x100 + x) * 0x100 + y;
    assert v / 0x1_0000 == w * 0x100 + x;
    assert v / 0x100_0000 == w;
  }

  /** Six hex digits are three bytes. */
  lemma SixDigits(h: string)
    requires AllHex(h) && |h| == 6
    ensures AllHex(h[..2]) && AllHex(h[2..4]) && AllHex(h[4..])
    ensures HexValue(h[..2]) < 0x100 && HexValue(h[2..4]) < 0x100 && HexValue(h[4..]) < 0x100
    ensures HexValue(h) == (HexValue(h[..2]) * 0x100 + HexValue(h[2..4])) * 0x100 + HexValue(h[4..])
  {
    var r, g, b := h[..2], h[2..4], h[4..];
    assert h == r + g + b;
    HexValueByte([], r);
    assert [] + r == r;
    HexValueByte(r, g);
    HexValueByte(r + g, b);
  }

  /** Eight hex digits are four bytes. */
  lemma EightDigits(h: string)
    requires AllHex(h) && |h| == 8
    ensures AllHex(h[..2]) && AllHex(h[2..4]) && AllHex(h[4..6]) && AllHex(h[6..])
    ensures HexValue(h[..2]) < 0x100 && HexValue(h[2..4]) < 0x100 && HexValue(h[4..6]) < 0x100 && HexValue(h[6..]) < 0x100
    ensures HexValue(h) == ((HexValue(h[..2]) * 0x100 + HexValue(h[2..4])) * 0x100 + HexValue(h[4..6])) * 0x100 + HexValue(h[6..])
  {
    var a, r, g, b := h[..2], h[2..4], h[4..6], h[6..];
    assert h == a + r + g + b;
    HexValueByte([], a);
    assert [] + a == a;
    HexValueByte(a, r);
    HexValueByte(a + r, g);
    HexValueByte(a + r + g, b);
  }

  /** Six hex digits decode as three bytes, red, green, blue, each written
      as two digits. */
  lemma FromHexRgb(hex: string)
    requires |StripHash(hex)| == 6 && AllHex(StripHash(hex))
    ensures FromHex(hex) == Color(255, HexValue(StripHash(hex)[..2]), HexValue(StripHash(hex)[2..4]), HexValue(StripHash(hex)[4..]))
  {
    var h := StripHash(hex);
    SixDigits(h);
    ScanAllHex(h);
    ThreeBytesMasked(ScanHex(h), HexValue(h[..2]), HexValue(h[2..4]), HexValue(h[4..]));
  }

  /** Eight hex digits decode as four bytes, alpha first. */
  lemma FromHexArgb(hex: string)
    requires |StripHash(hex)| == 8 && AllHex(StripHash(hex))
    ensures FromHex(hex) == Color(HexValue(StripHash(hex)[..2]), HexValue(StripHash(hex)[2..4]),
                                  HexValue(StripHash(hex)[4..6]), HexValue(StripHash(hex)[6..]))
  {
    var h := StripHash(hex);
    EightDigits(h);
    ScanAllHex(h);
    FourBytesMasked(ScanHex(h), HexValue(h[..2]), HexValue(h[2..4]), HexValue(h[4..6]), HexValue(h[6..]));
  }

  /** Removing '#' once more changes nothing: a string decodes like the same
      string with its '#' characters removed. */
  lemma FromHexIgnoresHashes(hex: string)
    ensures FromHex(hex) == FromHex(StripHash(hex))
  {
    Strings.WithoutAbsent(StripHash(hex), '#');
  }

  /** A leading '#' is optional. */
  lemma FromHexHashOptional(s: string)
    ensures FromHex("#" + s) == FromHex(s)
  {
    Strings.WithoutAppend("#", s, '#');
    assert Strings.Without("#", '#') == [];
    assert StripHash("#" + s) == StripHash(s);
  }

  // --------------------------------------------------------------- formatting

  /** `%lX` of a non-negative number: upper-case digits, no leading zero. */
  function HexString(n: nat): (s: string)
    ensures s != [] && AllUpperHex(s) && AllHex(s)
    ensures HexValue(s) == n
    ensures n > 0 ==> s[0] != '0'
    ensures n < 16 <==> |s| == 1
    decreases n
  {
    if n < 16 then [UpperHexDigit(n)]
    else
      var s := HexString(n / 16) + [UpperHexDigit(n % 16)];
      assert s[..|s| - 1] == HexString(n / 16);
      s
  }

  /** `%02lX`: the same, padded with a '0' to two digits. */
  function Format02(n: nat): (s: string)
    ensures AllUpperHex(s) && AllHex(s) && HexValue(s) == n
    ensures n < 256 ==> |s| == 2
  {
    if n < 16 then
      var s := ['0'] + HexString(n);
      assert s[..1] == "0";
      s
    else
      assert n < 256 ==> n / 16 < 16;
      HexString(n)
  }

  /** `String(format: "#%02lX%02lX%02lX", r, g, b)`. */
  function FormatRgb(r: nat, g: nat, b: nat): (s: string)
    ensures r < 256 && g < 256 && b < 256 ==> |s| == 7 && s[0] == '#' && AllUpperHex(s[1..])
  {
    HashThenUpper(Format02(r), Format02(g), Format02(b));
    "#" + Format02(r) + Format02(g) + Format02(b)
  }

  lemma HashThenUpper(x: string, y: string, z: string)
    requires AllUpperHex(x) && AllUpperHex(y) && AllUpperHex(z)
    ensures ("#" + x + y + z)[0] == '#'
    ensures ("#" + x + y + z)[1..] == x + y + z && AllUpperHex(x + y + z)
  {
    var w := x + y + z;
    assert forall i :: 0 <= i < |w| ==> w[i] == if i < |x| then x[i] else if i < |x| + |y| then y[i - |x|] else z[i - |x| - |y|];
    assert "#" + x + y + z == "#" + w;
  }

  /** `Color.toHex()` from the rounded 8-bit channels: it always produces a
      string, which drops alpha and decodes back to the opaque colour. */
  function ToHex(c: Color): (s: Option<string>)
    ensures s.Some?
    ensures c.red < 256 && c.green < 256 && c.blue < 256 ==>
      |s.value| == 7 && FromHex(s.value) == Color(255, c.red, c.green, c.blue)
  {
    if c.red < 256 && c.green < 256 && c.blue < 256 then
      DecodeFormatted(c.red, c.green, c.blue);
      Some(FormatRgb(c.red, c.green, c.blue))
    else
      Some(FormatRgb(c.red, c.green, c.blue))
  }

  /** Decoding a formatted colour gives back its channels, opaque. */
  lemma DecodeFormatted(r: nat, g: nat, b: nat)
    requires r < 256 && g < 256 && b < 256
    ensures FromHex(FormatRgb(r, g, b)) == Color(255, r, g, b)
  {
    var digits := Format02(r) + Format02(g) + Format02(b);
    HashThenUpper(Format02(r), Format02(g), Format02(b));
    FromHexHashOptional(digits);
    UpperIsHex(digits);
    Strings.WithoutAbsent(digits, '#');
    ThreeSlices(Format02(r), Format02(g), Format02(b));
    FromHexRgb(digits);
  }

  lemma ThreeSlices(x: string, y: string, z: string)
    requires |x| == 2 && |y| == 2 && |z| == 2
    ensures (x + y + z)[..2] == x && (x + y + z)[2..4] == y && (x + y + z)[4..] == z
  {
  }

  /** Two upper-case digits are written back unchanged by `%02lX`. */
  lemma Format02OfDigits(s: string)
    requires |s| == 2 && AllUpperHex(s)
    ensures AllHex(s) && Format02(HexValue(s)) == s
  {
    assert IsUpperHexDigit(s[0]) && IsUpperHexDigit(s[1]);
    assert s[..1] == [s[0]];
    var hi, lo := DigitValue(s[0]), DigitValue(s[1]);
    assert HexValue(s) == hi * 16 + lo;
    UpperHexDigitOfValue(s[0]);
    UpperHexDigitOfValue(s[1]);
    assert (hi * 16 + lo) / 16 == hi && (hi * 16 + lo) % 16 == lo;
    if hi == 0 {
      assert s == ['0', s[1]];
    }
  }

  /** Six upper-case digits decode to channels that format back to the same
      string, with the '#' put in front. */
  lemma FormatDecoded(s: string)
    requires |s| == 6 && AllUpperHex(s)
    ensures var c := FromHex(s); FormatRgb(c.red, c.green, c.blue) == "#" + s
  {
    FromHexUpper(s);
    SlicesUpper(s);
    FormatOfDigits(s[..2], s[2..4], s[4..]);
    HashThenSlices(s);
  }

  lemma SlicesUpper(s: string)
    requires |s| == 6 && AllUpperHex(s)
    ensures AllUpperHex(s[..2]) && AllUpperHex(s[2..4]) && AllUpperHex(s[4..])
  {
  }

  lemma HashThenSlices(s: string)
    requires |s| == 6
    ensures "#" + s[..2] + s[2..4] + s[4..] == "#" + s
  {
    assert s[..2] + s[2..4] + s[4..] == s;
  }

  lemma FromHexUpper(s: string)
    requires |s| == 6 && AllUpperHex(s)
    ensures AllHex(s)
    ensures FromHex(s) == Color(255, HexValue(s[..2]), HexValue(s[2..4]), HexValue(s[4..]))
  {
    UpperIsHex(s);
    Strings.WithoutAbsent(s, '#');
    FromHexRgb(s);
  }

  lemma FormatOfDigits(r: string, g: string, b: string)
    requires |r| == 2 && |g| == 2 && |b| == 2
    requires AllUpperHex(r) && AllUpperHex(g) && AllUpperHex(b)
    ensures AllHex(r) && AllHex(g) && AllHex(b)
    ensures FormatRgb(HexValue(r), HexValue(g), HexValue(b)) == "#" + r + g + b
  {
    Format02OfDigits(r);
    Format02OfDigits(g);
    Format02OfDigits(b);
  }

  lemma UpperIsHex(s: string)
    requires AllUpperHex(s)
    ensures AllHex(s) && '#' !in s
  {
    assert forall i :: 0 <= i < |s| ==> IsUpperHexDigit(s[i]);
  }

  /** The stored defaults of the settings screen decode to blue, red, pink
      and purple. */
  lemma DefaultsDecode()
    ensures FromHex("#0000FF") == Color(255, 0, 0, 255)
    ensures FromHex("#FF0000") == Color(255, 255, 0, 0)
    ensures FromHex("#FFC0CB") == Color(255, 255, 192, 203)
    ensures FromHex("#800080") == Color(255, 128, 0, 128)
  {
    DefaultBlue();
    DefaultRed();
    DefaultPink();
    DefaultPurple();
  }

  lemma DefaultBlue()
    ensures FromHex("#0000FF") == Color(255, 0, 0, 255)
  {
    var s := "0000FF";
    assert "#0000FF" == "#" + s;
    assert s[..2] == [s[0], s[1]] && s[2..4] == [s[2], s[3]] && s[4..] == [s[4], s[5]];
    TwoDigits(s[0], s[1]);
    TwoDigits(s[2], s[3]);
    TwoDigits(s[4], s[5]);
    DecodeDefault(s, 0, 0, 255);
  }

  lemma DefaultRed()
    ensures FromHex("#FF0000") == Color(255, 255, 0, 0)
  {
    var s := "FF0000";
    assert "#FF0000" == "#" + s;
    assert s[..2] == [s[0], s[1]] && s[2..4] == [s[2], s[3]] && s[4..] == [s[4], s[5]];
    TwoDigits(s[0], s[1]);
    TwoDigits(s[2], s[3]);
    TwoDigits(s[4], s[5]);
    DecodeDefault(s, 255, 0, 0);
  }

  lemma DefaultPink()
    ensures FromHex("#FFC0CB") == Color(255, 255, 192, 203)
  {
    var s := "FFC0CB";
    assert "#FFC0CB" == "#" + s;
    assert s[..2] == [s[0], s[1]] && s[2..4] == [s[2], s[3]] && s[4..] == [s[4], s[5]];
    TwoDigits(s[0], s[1]);
    TwoDigits(s[2], s[3]);
    TwoDigits(s[4], s[5]);
    DecodeDefault(s, 255, 192, 203);
  }

  lemma DefaultPurple()
    ensures FromHex("#800080") == Color(255, 128, 0, 128)
  {
    var s := "800080";
    assert "#800080" == "#" + s;
    assert s[..2] == [s[0], s[1]] && s[2..4] == [s[2], s[3]] && s[4..] == [s[4], s[5]];
    TwoDigits(s[0], s[1]);
    TwoDigits(s[2], s[3]);
    TwoDigits(s[4], s[5]);
    DecodeDefault(s, 128, 0, 128);
  }

  lemma TwoDigits(hi: char, lo: char)
    requires IsUpperHexDigit(hi) && IsUpperHexDigit(lo)
    ensures AllUpperHex([hi, lo]) && AllHex([hi, lo])
    ensures HexValue([hi, lo]) == DigitValue(hi) * 16 + DigitValue(lo)
  {
    assert [hi, lo][..1] == [hi];
    assert [hi][..0] == [];
  }

  lemma DecodeDefault(s: string, r: nat, g: nat, b: nat)
    requires |s| == 6 && AllUpperHex(s)
    requires HexValue(s[..2]) == r && HexValue(s[2..4]) == g && HexValue(s[4..]) == b
    ensures FromHex("#" + s) == Color(255, r, g, b)
  {
    FromHexHashOptional(s);
    FromHexUpper(s);
  }
}
