/** The animated particle background (`ParticlesBg` component): colour parsing, the
    floored linear remapping, spawning, the per-frame particle step and the frame loop
    that replaces particles drifting off the canvas. Random values are drawn from a
    stream given as a parameter; canvas drawing and frame scheduling are not modelled. */
module Particles {
  import opened Wrappers
  import opened Text
  import opened JsNumber

  // ---------------------------------------------------------------------------
  // Colour parsing: `colorRGB`

  /** ECMAScript white space and line terminators, which `parseInt` skips. */
  predicate IsJsSpace(c: char)
  {
    '\t' <= c <= '\r' || c == ' ' || c == '\U{a0}' || c == '\U{1680}' || '\U{2000}' <= c <= '\U{200a}'
    || c == '\U{2028}' || c == '\U{2029}' || c == '\U{202f}' || c == '\U{205f}' || c == '\U{3000}'
    || c == '\U{feff}'
  }

  predicate IsHexDigit(c: char)
  {
    '0' <= c <= '9' || 'a' <= c <= 'f' || 'A' <= c <= 'F'
  }

  predicate AllHex(s: string)
  {
    forall i :: 0 <= i < |s| ==> IsHexDigit(s[i])
  }

  function HexDigitValue(c: char): (v: nat)
    requires IsHexDigit(c)
    ensures v < 16
  {
    if '0' <= c <= '9' then c as int - '0' as int
    else if 'a' <= c <= 'f' then c as int - 'a' as int + 10
    else c as int - 'A' as int + 10
  }

  /** The length of the longest prefix of `s` made of hexadecimal digits. */
  function HexRun(s: string): (n: nat)
    ensures n <= |s| && AllHex(s[..n])
    ensures n < |s| ==> !IsHexDigit(s[n])
  {
    if s != [] && IsHexDigit(s[0]) then
      assert s[..1 + HexRun(s[1..])] == [s[0]] + s[1..][..HexRun(s[1..])];
      1 + HexRun(s[1..])
    else 0
  }

  /** The value of a string of hexadecimal digits, most significant digit first. */
  function HexValue(s: string): nat
    requires AllHex(s)
  {
    if s == [] then 0 else HexValue(s[..|s| - 1]) * 16 + HexDigitValue(s[|s| - 1])
  }

  function SkipJsSpace(s: string): (r: string)
    ensures |r| <= |s| && r == s[|s| - |r|..]
    ensures r == [] || !IsJsSpace(r[0])
  {
    if s != [] && IsJsSpace(s[0]) then SkipJsSpace(s[1..]) else s
  }

  /** A run of hexadecimal digits followed by a non-digit is read exactly. */
  lemma {:induction false} HexRunOfDigits(digits: string, rest: string)
    requires AllHex(digits) && (rest == [] || !IsHexDigit(rest[0]))
    ensures HexRun(digits + rest) == |digits|
  {
    if digits == [] {
      assert digits + rest == rest;
    } else {
      assert (digits + rest)[0] == digits[0];
      assert (digits + rest)[1..] == digits[1..] + rest;
      HexRunOfDigits(digits[1..], rest);
    }
  }

  /** One leading sign character is dropped. */
  function AfterSign(t: string): (u: string)
    ensures |u| <= |t|
  {
    if t != [] && (t[0] == '-' || t[0] == '+') then t[1..] else t
  }

  /** A leading `0x` or `0X` is dropped. */
  function AfterHexPrefix(u: string): (v: string)
    ensures |v| <= |u|
  {
    if |u| >= 2 && u[0] == '0' && (u[1] == 'x' || u[1] == 'X') then u[2..] else u
  }

  /** `parseInt(s, 16)`, with `None` for NaN: leading white space is skipped, one sign
      and then a `0x`/`0X` prefix are accepted, and the longest run of hexadecimal
      digits that follows is read; without any digit the result is NaN. */
  function ParseIntHex(s: string): (r: Option<int>)
    ensures s == [] ==> r.None?
  {
    var t := SkipJsSpace(s);
    var v := AfterHexPrefix(AfterSign(t));
    var n := HexRun(v);
    if n == 0 then None
    else if t[0] == '-' then Some(-(HexValue(v[..n]) as int))
    else Some(HexValue(v[..n]))
  }

  /** A hexadecimal number is read up to the first character that is not a digit
      (unless a lone `0` followed by `x` reads as a `0x` prefix). */
  lemma ParseIntHexStopsAtNonDigit(digits: string, rest: string)
    requires digits != [] && AllHex(digits)
    requires rest == [] || !IsHexDigit(rest[0])
    requires !(digits == "0" && rest != [] && (rest[0] == 'x' || rest[0] == 'X'))
    ensures ParseIntHex(digits + rest) == Some(HexValue(digits))
  {
    var s := digits + rest;
    assert s[0] == digits[0];
    assert SkipJsSpace(s) == s;
    assert AfterSign(s) == s;
    assert AfterHexPrefix(s) == s by {
      if |digits| >= 2 {
        assert s[1] == digits[1];
      }
    }
    HexRunOfDigits(digits, rest);
    assert s[..|digits|] == digits;
  }

  /** A string made only of hexadecimal digits is read whole. */
  lemma ParseIntHexAllDigits(digits: string)
    requires digits != [] && AllHex(digits)
    ensures ParseIntHex(digits) == Some(HexValue(digits))
  {
    assert digits + [] == digits;
    ParseIntHexStopsAtNonDigit(digits, []);
  }

  /** The three colour channels of `colorRGB`. */
  datatype Rgb = Rgb(r: int, g: int, b: int)

  /** `color.replace(/^#/, "")`: one leading `#` is dropped. */
  function StripHash(color: string): (hex: string)
    ensures color == hex || color == "#" + hex
    ensures (color != [] && color[0] == '#') <==> |hex| == |color| - 1
  {
    if color != [] && color[0] == '#' then color[1..] else color
  }

  /** A 3-character code is expanded by doubling each character, whatever it is. */
  function ExpandShort(hex: string): (r: string)
    ensures |hex| == 3 ==> |r| == 6 && r[0] == r[1] == hex[0] && r[2] == r[3] == hex[1] && r[4] == r[5] == hex[2]
    ensures |hex| != 3 ==> r == hex
  {
    if |hex| == 3 then [hex[0], hex[0], hex[1], hex[1], hex[2], hex[2]] else hex
  }

  /** `(n >> shift) & 255` on the 32-bit conversion of the parsed number, for a shift
      of 16, 8 or 0 bits given as `unit = 2^shift`. The arithmetic shift of the signed
      32-bit value and the Euclidean division of its unsigned counterpart agree on
      the eight bits kept. NaN converts to 0. */
  function Channel(n: Option<int>, unit: nat): (c: int)
    requires unit == 0x10000 || unit == 0x100 || unit == 1
    ensures 0 <= c < 256
  {
    match n
    case None => 0
    case Some(v) =>
      var u := v % 0x1_0000_0000;
      (if unit == 0x10000 then u / 0x10000 else if unit == 0x100 then u / 0x100 else u) % 256
  }

  function ColorChannels(color: string): (c: Rgb)
    ensures 0 <= c.r < 256 && 0 <= c.g < 256 && 0 <= c.b < 256
  {
    var n := ParseIntHex(ExpandShort(StripHash(color)));
    Rgb(Channel(n, 0x10000), Channel(n, 0x100), Channel(n, 1))
  }

  /** `colorRGB`: the three channels in decimal, separated by single spaces, so that
      splitting at the spaces and reading each field back gives the channels. */
  function ColorRGB(color: string): (s: string)
    ensures var c := ColorChannels(color); ReadsBackAs(s, c.r, c.g, c.b)
  {
    var c := ColorChannels(color);
    DecimalFields(c.r, c.g, c.b);
    Decimal(c.r) + " " + Decimal(c.g) + " " + Decimal(c.b)
  }

  /** `s` splits at single spaces into exactly three fields of decimal digits, whose
      values are `x`, `y` and `z`. */
  predicate ReadsBackAs(s: string, x: nat, y: nat, z: nat)
  {
    var f := Split(s, ' ');
    && |f| == 3
    && (forall k, i :: 0 <= k < 3 && 0 <= i < |f[k]| ==> IsDigit(f[k][i]))
    && DecimalValue(f[0]) == x && DecimalValue(f[1]) == y && DecimalValue(f[2]) == z
  }

  /** Three numbers written in decimal with single spaces between them split back into
      their three renderings, which read back as the numbers. */
  lemma DecimalFields(x: nat, y: nat, z: nat)
    ensures Split(Decimal(x) + " " + Decimal(y) + " " + Decimal(z), ' ') == [Decimal(x), Decimal(y), Decimal(z)]
    ensures ReadsBackAs(Decimal(x) + " " + Decimal(y) + " " + Decimal(z), x, y, z)
  {
    var a, b, c := Decimal(x), Decimal(y), Decimal(z);
    ThreeFields(a, b, c);
    DecimalRoundTrip(x);
    DecimalRoundTrip(y);
    DecimalRoundTrip(z);
    TripleReadsBack(a + " " + b + " " + c, a, b, c, x, y, z);
  }

  lemma TripleReadsBack(s: string, a: string, b: string, c: string, x: nat, y: nat, z: nat)
    requires Split(s, ' ') == [a, b, c]
    requires forall i :: 0 <= i < |a| ==> IsDigit(a[i])
    requires forall i :: 0 <= i < |b| ==> IsDigit(b[i])
    requires forall i :: 0 <= i < |c| ==> IsDigit(c[i])
    requires DecimalValue(a) == x && DecimalValue(b) == y && DecimalValue(c) == z
    ensures ReadsBackAs(s, x, y, z)
  {
  }

  /** Three space-free fields joined by single spaces split back into the fields. */
  lemma ThreeFields(a: string, b: string, c: string)
    requires forall i :: 0 <= i < |a| ==> IsDigit(a[i])
    requires forall i :: 0 <= i < |b| ==> IsDigit(b[i])
    requires forall i :: 0 <= i < |c| ==> IsDigit(c[i])
    ensures Split(a + " " + b + " " + c, ' ') == [a, b, c]
  {
    var sp := ' ';
    assert sp !in a && sp !in b && sp !in c;
    var bc := b + [sp] + c;
    assert a + " " + b + " " + c == a + [sp] + bc;
    SplitAfterField(a, bc, sp);
    SplitAfterField(b, c, sp);
    SplitNoSep(c, sp);
  }

  /** A six-digit code, with or without `#`, gives its three byte pairs in decimal. */
  lemma FullFormText(d: string)
    requires |d| == 6 && AllHex(d)
    ensures ColorRGB("#" + d) == ColorRGB(d)
              == Decimal(ByteAt(d, 0)) + " " + Decimal(ByteAt(d, 2)) + " " + Decimal(ByteAt(d, 4))
  {
    FullFormChannels(d);
  }

  /** A three-digit code, with or without `#`, gives 17 times each digit in decimal. */
  lemma ShortFormText(d: string)
    requires |d| == 3 && AllHex(d)
    ensures ColorRGB("#" + d) == ColorRGB(d)
              == Decimal(HexDigitValue(d[0]) * 17) + " " + Decimal(HexDigitValue(d[1]) * 17) + " "
                 + Decimal(HexDigitValue(d[2]) * 17)
  {
    ShortFormChannels(d);
  }

  lemma IntWholeMultipleBelow(k: int, m: int, km: int)
    requires m > 0 && km == k * m && -m < km < m
    ensures k == 0
  {
  }

  lemma DivPlus(a: int, b: int, m: int)
    requires m > 0 && 0 <= b < m
    ensures (a * m + b) / m == a && (a * m + b) % m == b
  {
    var n := a * m + b;
    var q, r := n / m, n % m;
    assert q * m + r == n;
    var k := q - a;
    var km := k * m;
    assert km == q * m - a * m;
    IntWholeMultipleBelow(k, m, km);
  }

  /** Channel extraction from a 24-bit value `rr·2^16 + gg·2^8 + bb`. */
  lemma ChannelsOf24Bits(v: int, rr: int, gg: int, bb: int)
    requires 0 <= rr < 256 && 0 <= gg < 256 && 0 <= bb < 256
    requires v == rr * 0x10000 + gg * 0x100 + bb
    ensures Channel(Some(v), 0x10000) == rr && Channel(Some(v), 0x100) == gg && Channel(Some(v), 1) == bb
  {
    DivPlus(0, v, 0x1_0000_0000);
    DivPlus(rr, gg * 0x100 + bb, 0x10000);
    DivPlus(0, rr, 256);
    DivPlus(rr * 0x100 + gg, bb, 0x100);
    DivPlus(rr, gg, 256);
    DivPlus(rr * 0x100 + gg, bb, 256);
  }

  /** The byte written by the two hexadecimal digits at `i` and `i + 1`. */
  function ByteAt(d: string, i: nat): (b: nat)
    requires i + 1 < |d| && AllHex(d)
    ensures b < 256
  {
    HexDigitValue(d[i]) * 16 + HexDigitValue(d[i + 1])
  }

  lemma HexValueSix(d: string)
    requires |d| == 6 && AllHex(d)
    ensures HexValue(d) == ByteAt(d, 0) * 0x10000 + ByteAt(d, 2) * 0x100 + ByteAt(d, 4)
  {
    assert HexValue(d[..1]) == HexDigitValue(d[0]) by {
      assert d[..1][..0] == [];
    }
    assert HexValue(d[..2]) == HexValue(d[..1]) * 16 + HexDigitValue(d[1]) by {
      assert d[..2][..1] == d[..1];
    }
    assert HexValue(d[..3]) == HexValue(d[..2]) * 16 + HexDigitValue(d[2]) by {
      assert d[..3][..2] == d[..2];
    }
    assert HexValue(d[..4]) == HexValue(d[..3]) * 16 + HexDigitValue(d[3]) by {
      assert d[..4][..3] == d[..3];
    }
    assert HexValue(d[..5]) == HexValue(d[..4]) * 16 + HexDigitValue(d[4]) by {
      assert d[..5][..4] == d[..4];
    }
    assert HexValue(d) == HexValue(d[..5]) * 16 + HexDigitValue(d[5]);
  }

  /** A six-digit code `#RRGGBB` (with or without the `#`) gives its three byte values. */
  lemma FullFormChannels(d: string)
    requires |d| == 6 && AllHex(d)
    ensures ColorChannels("#" + d) == ColorChannels(d) == Rgb(ByteAt(d, 0), ByteAt(d, 2), ByteAt(d, 4))
  {
    assert ColorChannels("#" + d) == ColorChannels(d) by {
      assert ("#" + d)[1..] == d;
      assert StripHash("#" + d) == d == StripHash(d);
    }
    assert IsHexDigit(d[0]);
    assert StripHash(d) == d;
    assert ExpandShort(d) == d;
    var n := Some(HexValue(d));
    assert ColorChannels(d) == Rgb(Channel(n, 0x10000), Channel(n, 0x100), Channel(n, 1)) by {
      ParseIntHexAllDigits(d);
    }
    HexValueSix(d);
    ChannelsOf24Bits(HexValue(d), ByteAt(d, 0), ByteAt(d, 2), ByteAt(d, 4));
  }

  /** A three-digit code `#RGB` doubles each digit, so each channel is 17 times its digit. */
  lemma ShortFormChannels(d: string)
    requires |d| == 3 && AllHex(d)
    ensures ColorChannels("#" + d) == ColorChannels(d)
              == Rgb(HexDigitValue(d[0]) * 17, HexDigitValue(d[1]) * 17, HexDigitValue(d[2]) * 17)
  {
    var e := ExpandShort(d);
    ExpandedBytes(d);
    assert ColorChannels("#" + d) == ColorChannels(d) by {
      assert ("#" + d)[1..] == d;
      assert StripHash("#" + d) == d == StripHash(d);
    }
    assert ColorChannels(d) == ColorChannels(e) by {
      assert StripHash(d) == d && StripHash(e) == e && ExpandShort(e) == e;
    }
    FullFormChannels(e);
  }

  /** Each doubled digit `dd` is the byte 17 * d. */
  lemma ExpandedBytes(d: string)
    requires |d| == 3 && AllHex(d)
    ensures |ExpandShort(d)| == 6 && AllHex(ExpandShort(d))
    ensures ByteAt(ExpandShort(d), 0) == HexDigitValue(d[0]) * 17
    ensures ByteAt(ExpandShort(d), 2) == HexDigitValue(d[1]) * 17
    ensures ByteAt(ExpandShort(d), 4) == HexDigitValue(d[2]) * 17
  {
    var e := ExpandShort(d);
    assert AllHex(e) by {
      forall i | 0 <= i < 6 ensures IsHexDigit(e[i]) {
        assert e[i] == d[i / 2];
      }
    }
  }

  /** The default colour: "FFF" and "FFFFFF", with or without the `#`, give white. */
  lemma WhiteShortAndLong(d: string)
    requires (|d| == 3 || |d| == 6) && forall i :: 0 <= i < |d| ==> d[i] == 'F'
    ensures ColorRGB("#" + d) == ColorRGB(d) == "255 255 255"
  {
    assert HexDigitValue('F') == 15;
    assert AllHex(d);
    if |d| == 3 {
      ShortFormChannels(d);
    } else {
      FullFormChannels(d);
    }
    WhiteText("#" + d);
    WhiteText(d);
  }

  lemma WhiteText(color: string)
    requires ColorChannels(color) == Rgb(255, 255, 255)
    ensures ColorRGB(color) == "255 255 255"
  {
    DecimalTwoFiftyFive();
    var d := Decimal(255);
    SpacedTriple(d);
  }

  lemma SpacedTriple(d: string)
    requires d == "255"
    ensures d + " " + d + " " + d == "255 255 255"
  {
  }

  lemma DecimalTwoFiftyFive()
    ensures Decimal(255) == "255"
  {
    assert Decimal(2) == "2";
    assert Decimal(25) == Decimal(2) + [DigitChar(5)];
    assert Decimal(255) == Decimal(25) + [DigitChar(5)];
  }

  /** A colour name that is not a hexadecimal code parses to NaN and gives black. */
  lemma NamedColourIsBlack(color: string)
    requires color != [] && 'g' <= color[0] <= 'z'
    ensures ColorRGB(color) == "0 0 0"
  {
    var hex := StripHash(color);
    assert hex == color;
    var e := ExpandShort(hex);
    assert e != [] && e[0] == color[0];
    assert !IsJsSpace(e[0]) && !IsHexDigit(e[0]);
    assert SkipJsSpace(e) == e && AfterSign(e) == e && AfterHexPrefix(e) == e;
    assert HexRun(e) == 0;
    assert ParseIntHex(e) == None;
    assert ColorChannels(color) == Rgb(0, 0, 0);
    assert Decimal(0) == "0";
  }

  // ---------------------------------------------------------------------------
  // `remapValue` and `toFixed`

  /** `remapValue(value, start1, end1, start2, end2)`: the linear map taking
      [start1, end1] onto [start2, end2], with every result that is not positive
      (NaN included) replaced by 0. A degenerate source interval divides by zero; an
      infinite value stays infinite unless the target interval is degenerate.
      `RemapValueIsJs` proves this is the JavaScript expression evaluated step by step. */
  function RemapValue(value: Num, start1: real, end1: real, start2: real, end2: real): (r: Num)
    ensures r.Fin? ==> r.v >= 0.0
    ensures r == PosInf || r.Fin?
    ensures value.Fin? && start1 != end1 ==> r == Fin(Max(LinearMap(value.v, start1, end1, start2, end2), 0.0))
    ensures value.Fin? && start1 == end1 ==> (r == PosInf <==> (value.v - start1) * (end2 - start2) > 0.0)
    ensures value == NaN ==> r == Fin(0.0)
    ensures start1 < end1 && start2 < end2 ==> (value == PosInf ==> r == PosInf) && (value == NegInf ==> r == Fin(0.0))
  {
    if value.Fin? then PositiveOrZero(Add(Divide((value.v - start1) * (end2 - start2), end1 - start1), Fin(start2)))
    else if value == NaN then Fin(0.0)
    else if end2 - start2 != 0.0 && ((value == PosInf) == (end2 - start2 > 0.0)) == (end1 - start1 >= 0.0) then PosInf
    else Fin(0.0)
  }

  /** The affine map taking `start1` to `start2` and `end1` to `end2`. */
  function LinearMap(x: real, start1: real, end1: real, start2: real, end2: real): (y: real)
    requires start1 != end1
    ensures (y - start2) * (end1 - start1) == (x - start1) * (end2 - start2)
  {
    (x - start1) * (end2 - start2) / (end1 - start1) + start2
  }

  /** `remapped > 0 ? remapped : 0`. */
  function PositiveOrZero(n: Num): (r: Num)
    ensures r == PosInf || r.Fin?
    ensures r.Fin? ==> r.v >= 0.0
    ensures n.Fin? && n.v > 0.0 ==> r == n
    ensures n == PosInf ==> r == PosInf
    ensures n == NaN || n == NegInf || (n.Fin? && n.v <= 0.0) ==> r == Fin(0.0)
  {
    match n
    case Fin(v) => if v > 0.0 then n else Fin(0.0)
    case PosInf => PosInf
    case _ => Fin(0.0)
  }

  /** The JavaScript evaluation of `remapValue`'s body, one operation at a time. */
  function RemapSteps(value: Num, start1: real, end1: real, start2: real, end2: real): Num
  {
    PositiveOrZero(Add(DivBy(Times(Sub(value, Fin(start1)), end2 - start2), end1 - start1), Fin(start2)))
  }

  /** `RemapValue` agrees with the step-by-step evaluation on every input, NaN and
      the infinities included. */
  lemma RemapValueIsJs(value: Num, start1: real, end1: real, start2: real, end2: real)
    ensures RemapValue(value, start1, end1, start2, end2) == RemapSteps(value, start1, end1, start2, end2)
  {
    if value.Fin? {
      assert Times(Sub(value, Fin(start1)), end2 - start2) == Fin((value.v - start1) * (end2 - start2));
    }
  }

  /** The interval's ends map to the target's ends (floored at 0). */
  lemma RemapEndpoints(start1: real, end1: real, start2: real, end2: real)
    requires start1 != end1
    ensures RemapValue(Fin(start1), start1, end1, start2, end2) == Fin(Max(start2, 0.0))
    ensures RemapValue(Fin(end1), start1, end1, start2, end2) == Fin(Max(end2, 0.0))
  {
    LinearMapEnds(start1, end1, start2, end2);
  }

  lemma LinearMapEnds(start1: real, end1: real, start2: real, end2: real)
    requires start1 != end1
    ensures LinearMap(start1, start1, end1, start2, end2) == start2
    ensures LinearMap(end1, start1, end1, start2, end2) == end2
  {
    DivCancel(end1 - start1, end2 - start2);
    assert (start1 - start1) * (end2 - start2) == 0.0;
  }

  /** `(w·x) / w == x` for a nonzero `w`. */
  lemma DivCancel(w: real, x: real)
    requires w != 0.0
    ensures w * x / w == x
  {
    var q := w * x / w;
    assert q * w == x * w;
    if q < x {
      if w > 0.0 { MulLt(q, x, w); } else { MulLt(q, x, -w); }
    } else if x < q {
      if w > 0.0 { MulLt(x, q, w); } else { MulLt(x, q, -w); }
    }
  }

  /** Over an increasing interval onto an increasing interval, the map is monotone. */
  lemma RemapMonotone(v1: real, v2: real, start1: real, end1: real, start2: real, end2: real)
    requires start1 < end1 && start2 <= end2 && v1 <= v2
    ensures RemapValue(Fin(v1), start1, end1, start2, end2).v <= RemapValue(Fin(v2), start1, end1, start2, end2).v
  {
    var a1 := (v1 - start1) * (end2 - start2);
    var a2 := (v2 - start1) * (end2 - start2);
    assert a2 - a1 == (v2 - v1) * (end2 - start2);
    DivMonotone(a1, a2, end1 - start1);
  }

  lemma DivMonotone(x1: real, x2: real, w: real)
    requires w > 0.0 && x1 <= x2
    ensures x1 / w <= x2 / w
  {
    assert (x2 - x1) / w >= 0.0;
    assert x2 / w - x1 / w == (x2 - x1) / w;
  }

  /** `parseFloat(v.toFixed(digits))` with `scale = 10^digits`: the nearest multiple of
      1/scale, halves rounded away from zero. */
  function RoundFixed(v: real, scale: real): (r: real)
    requires scale == 10.0 || scale == 100.0
    ensures v >= 0.0 ==> r >= 0.0
    ensures v == 0.0 ==> r == 0.0
    ensures v >= 0.0 ==> v * scale - 0.5 < r * scale <= v * scale + 0.5
    ensures ((r * scale).Floor as real) == r * scale
  {
    if v >= 0.0 then
      var n := (v * scale + 0.5).Floor;
      ScaleBack(n, scale);
      n as real / scale
    else
      var n := ((-v) * scale + 0.5).Floor;
      ScaleBack(-n, scale);
      assert -(n as real / scale) == (-n) as real / scale;
      -(n as real / scale)
  }

  /** A whole number of `1/scale` steps scales back to that whole number. */
  lemma ScaleBack(n: int, scale: real)
    requires scale > 0.0
    ensures (n as real / scale) * scale == n as real
    ensures n >= 0 ==> n as real / scale >= 0.0
  {
  }

  // ---------------------------------------------------------------------------
  // Particles

  /** A uniform random number in [0, 1), as `Math.random()` returns. */
  type Unit = r: real | 0.0 <= r < 1.0

  /** The seven random numbers one call of `circleParams` draws, in order. */
  datatype Spawn = Spawn(x: Unit, y: Unit, size: Unit, alpha: Unit, dx: Unit, dy: Unit, magnetism: Unit)

  datatype Circle = Circle(
    x: real, y: real, translateX: Num, translateY: Num, size: int,
    alpha: real, targetAlpha: real, dx: real, dy: real, magnetism: real)

  /** What every particle keeps: a size of 1 or 2, a target opacity in [0.1, 0.7],
      a magnetism of at least 0.1, and an opacity between 0 and its target. */
  predicate CircleOk(c: Circle)
  {
    && (c.size == 1 || c.size == 2)
    && 0.1 <= c.targetAlpha <= 0.7
    && c.magnetism >= 0.1
    && 0.0 <= c.alpha <= c.targetAlpha
  }

  predicate AllOk(cs: seq<Circle>)
  {
    forall i :: 0 <= i < |cs| ==> CircleOk(cs[i])
  }

  lemma MulLt(a: real, b: real, d: real)
    requires a < b && d > 0.0
    ensures a * d < b * d
  {
    assert b * d - a * d == (b - a) * d;
  }

  /** `Math.floor(r * n)` for a random `r`: a whole number in [0, n) for n > 0, and 0
      for n = 0. */
  function Pixel(r: Unit, n: real): (p: real)
    requires n >= 0.0
    ensures 0.0 <= p && p.Floor as real == p
    ensures n > 0.0 ==> p < n
    ensures n == 0.0 ==> p == 0.0
  {
    assert n > 0.0 ==> r * n < n by {
      if n > 0.0 {
        MulLt(r, 1.0, n);
      }
    }
    MulNonNeg(r, n);
    (r * n).Floor as real
  }

  /** `parseFloat((r * 0.6 + 0.1).toFixed(1))`: one of 0.1, 0.2, ..., 0.7. */
  function TargetAlpha(r: Unit): (t: real)
    ensures 0.1 <= t <= 0.7 && (t * 10.0).Floor as real == t * 10.0
  {
    var t := RoundFixed(r * 0.6 + 0.1, 10.0);
    var k := (t * 10.0).Floor;
    assert 0.5 < k as real < 7.5;
    assert 1 <= k <= 7;
    t
  }

  /** `circleParams`: a fresh particle at a whole-pixel position inside the canvas, with
      no displacement, opacity 0, size 1 or 2, a target opacity rounded to one decimal
      in [0.1, 0.7], a drift below 0.1 per frame on each axis and magnetism in [0.1, 4.1). */
  function CircleParams(s: Spawn, w: real, h: real): (c: Circle)
    requires w >= 0.0 && h >= 0.0
    ensures CircleOk(c)
    ensures c.alpha == 0.0 && c.translateX == Fin(0.0) && c.translateY == Fin(0.0)
    ensures 0.0 <= c.x && (w > 0.0 ==> c.x < w) && (w == 0.0 ==> c.x == 0.0)
    ensures 0.0 <= c.y && (h > 0.0 ==> c.y < h) && (h == 0.0 ==> c.y == 0.0)
    ensures -0.1 <= c.dx < 0.1 && -0.1 <= c.dy < 0.1
    ensures 0.1 <= c.magnetism < 4.1
  {
    Circle(Pixel(s.x, w), Pixel(s.y, h), Fin(0.0), Fin(0.0), (s.size * 2.0).Floor + 1,
           0.0, TargetAlpha(s.alpha), (s.dx - 0.5) * 0.2, (s.dy - 0.5) * 0.2, 0.1 + s.magnetism * 4.0)
  }

  /** Everything a frame reads besides the particles: the canvas size, the recorded
      pointer, the `staticity` and `ease` props and whether a 2-D context exists
      (without one, `drawCircle` pushes nothing). */
  datatype Env = Env(w: real, h: real, mouseX: real, mouseY: real, staticity: real, ease: real, hasContext: bool)

  predicate EnvOk(env: Env)
  {
    env.w >= 0.0 && env.h >= 0.0
  }

  /** The distance from the particle's drawn position to the nearest canvas edge,
      less its size. With finite displacements it is the smallest of the four edge
      distances; a NaN displacement makes it NaN and an infinite one -Infinity.
      `ClosestEdgeIsMathMin` proves this is what `Math.min` over the four JavaScript
      edge expressions gives. */
  function ClosestEdge(c: Circle, w: real, h: real): (d: Num)
    ensures c.translateX.Fin? && c.translateY.Fin? ==>
              var s, tx, ty := c.size as real, c.translateX.v, c.translateY.v;
              && d.Fin?
              && d.v <= c.x + tx - s && d.v <= w - c.x - tx - s
              && d.v <= c.y + ty - s && d.v <= h - c.y - ty - s
              && (d.v == c.x + tx - s || d.v == w - c.x - tx - s || d.v == c.y + ty - s || d.v == h - c.y - ty - s)
    ensures !c.translateX.Fin? || !c.translateY.Fin? ==> d == NaN || d == NegInf
  {
    if c.translateX.Fin? && c.translateY.Fin? then
      var s, tx, ty := c.size as real, c.translateX.v, c.translateY.v;
      Fin(Min(Min(Min(c.x + tx - s, w - c.x - tx - s), c.y + ty - s), h - c.y - ty - s))
    else if c.translateX == NaN || c.translateY == NaN then NaN
    else NegInf
  }

  /** The four edge distances as the frame computes them, `x + translateX - size`,
      `w - x - translateX - size` and the same vertically, combined by `Math.min`
      from left to right. */
  function EdgeReduce(c: Circle, w: real, h: real): Num
  {
    var s := Fin(c.size as real);
    var left := Sub(Add(Fin(c.x), c.translateX), s);
    var right := Sub(Sub(Fin(w - c.x), c.translateX), s);
    var top := Sub(Add(Fin(c.y), c.translateY), s);
    var bottom := Sub(Sub(Fin(h - c.y), c.translateY), s);
    MathMin(MathMin(MathMin(left, right), top), bottom)
  }

  /** The closed form agrees with JavaScript's evaluation for every particle, NaN and
      infinite displacements included. */
  lemma ClosestEdgeIsMathMin(c: Circle, w: real, h: real)
    ensures ClosestEdge(c, w, h) == EdgeReduce(c, w, h)
  {
  }

  /** `parseFloat(remapValue(closestEdge, 0, 20, 0, 1).toFixed(2))`: the edge distance
      over 20 pixels, floored at 0 and rounded to two decimals; 0 when the distance is
      NaN or -Infinity. */
  function EdgeFactor(c: Circle, w: real, h: real): (e: real)
    ensures e >= 0.0
    ensures !c.translateX.Fin? || !c.translateY.Fin? ==> e == 0.0
  {
    RoundFixed(EdgeRemap(ClosestEdge(c, w, h)), 100.0)
  }

  /** `remapValue(closestEdge, 0, 20, 0, 1)`, which is finite for every distance but
      +Infinity, and 0 for NaN and -Infinity. */
  function EdgeRemap(d: Num): (f: real)
    requires d != PosInf
    ensures f >= 0.0
    ensures !d.Fin? ==> f == 0.0
  {
    RemapValue(d, 0.0, 20.0, 0.0, 1.0).v
  }

  /** One particle's update in a frame: away from the edges (factor above 1) the opacity
      rises by 0.02 up to its target, near them it is the target times the factor; the
      base position drifts by (dx, dy); the displacement moves the fraction 1/ease of
      the way towards `mouse / (staticity / magnetism)`. */
  function Step(c: Circle, env: Env): (r: Circle)
    requires EnvOk(env) && CircleOk(c)
    ensures CircleOk(r)
    ensures r.size == c.size && r.targetAlpha == c.targetAlpha && r.magnetism == c.magnetism
    ensures r.dx == c.dx && r.dy == c.dy
    ensures r.x == c.x + c.dx && r.y == c.y + c.dy
    ensures r.alpha == Fade(c.alpha, c.targetAlpha, EdgeFactor(c, env.w, env.h))
    ensures r.translateX == Eased(c.translateX, Attraction(env.mouseX, env.staticity, c.magnetism), env.ease)
    ensures r.translateY == Eased(c.translateY, Attraction(env.mouseY, env.staticity, c.magnetism), env.ease)
  {
    c.(alpha := Fade(c.alpha, c.targetAlpha, EdgeFactor(c, env.w, env.h)),
       x := c.x + c.dx,
       y := c.y + c.dy,
       translateX := Eased(c.translateX, Attraction(env.mouseX, env.staticity, c.magnetism), env.ease),
       translateY := Eased(c.translateY, Attraction(env.mouseY, env.staticity, c.magnetism), env.ease))
  }

  /** The displacement a pointer coordinate pulls a particle towards:
      `mouse / (staticity / magnetism)`. A nonzero staticity gives the finite value
      whose product with `staticity / magnetism` is the pointer coordinate; a zero
      staticity divides by zero (NaN for a pointer on the centre line). */
  function Attraction(mouse: real, staticity: real, magnetism: real): (a: Num)
    requires magnetism > 0.0
    ensures staticity != 0.0 ==> a.Fin? && a.v * staticity == mouse * magnetism
    ensures staticity == 0.0 ==> (a == NaN <==> mouse == 0.0) && (a == PosInf <==> mouse > 0.0)
                                 && (a == NegInf <==> mouse < 0.0)
  {
    var q := staticity / magnetism;
    assert staticity == q * magnetism;
    assert staticity != 0.0 ==> (mouse / q) * staticity == mouse * magnetism by {
      if staticity != 0.0 {
        assert (mouse / q) * staticity == (mouse / q) * q * magnetism;
      }
    }
    Divide(mouse, q)
  }

  /** One easing step in JavaScript arithmetic: `current += (target - current) / ease`.
      The result is finite exactly when both operands are and the ease is nonzero, and
      then it is the real step; otherwise it is the IEEE evaluation. `EasedIsJs` proves
      the whole function is the JavaScript expression evaluated step by step. */
  function Eased(current: Num, target: Num, ease: real): (r: Num)
    ensures current.Fin? && target.Fin? && ease != 0.0 ==> r == Fin(EaseStep(current.v, target.v, ease))
    ensures r.Fin? <==> current.Fin? && target.Fin? && ease != 0.0
  {
    if current.Fin? && target.Fin? && ease != 0.0 then Fin(EaseStep(current.v, target.v, ease))
    else EasedSteps(current, target, ease)
  }

  /** The JavaScript evaluation of the easing step, one operation at a time. */
  function EasedSteps(current: Num, target: Num, ease: real): Num
  {
    Add(current, DivBy(Sub(target, current), ease))
  }

  /** `Eased` agrees with the step-by-step evaluation for every pair of operands. */
  lemma EasedIsJs(current: Num, target: Num, ease: real)
    ensures Eased(current, target, ease) == EasedSteps(current, target, ease)
  {
    if current.Fin? && target.Fin? && ease != 0.0 {
      var step := (target.v - current.v) / ease;
      assert DivBy(Sub(target, current), ease) == Fin(step);
      assert Add(current, Fin(step)) == Fin(current.v + step);
    }
  }

  /** The easing step on reals: it covers the fraction 1/ease of the gap to the target. */
  function EaseStep(current: real, target: real, ease: real): (next: real)
    requires ease != 0.0
    ensures (next - current) * ease == target - current
  {
    current + (target - current) / ease
  }

  /** A positive staticity pulls a particle to the pointer's side of the centre, a
      negative one pushes it to the opposite side, and a pointer on the centre line
      attracts to 0. */
  lemma AttractionSide(mouse: real, staticity: real, magnetism: real)
    requires magnetism > 0.0 && staticity != 0.0
    ensures var a := Attraction(mouse, staticity, magnetism);
            && (a.v == 0.0 <==> mouse == 0.0)
            && (staticity > 0.0 ==> (a.v > 0.0 <==> mouse > 0.0))
            && (staticity < 0.0 ==> (a.v > 0.0 <==> mouse < 0.0))
  {
    var a := Attraction(mouse, staticity, magnetism);
    SignOfProduct(a.v, staticity);
    SignOfProduct(mouse, magnetism);
  }

  /** The sign of a product of two numbers, the second nonzero. */
  lemma SignOfProduct(x: real, y: real)
    requires y != 0.0
    ensures x * y == 0.0 <==> x == 0.0
    ensures x * y > 0.0 <==> (x > 0.0 && y > 0.0) || (x < 0.0 && y < 0.0)
  {
    if x > 0.0 && y > 0.0 { MulLt(0.0, x, y); }
    if x < 0.0 && y > 0.0 { MulLt(x, 0.0, y); }
    if x > 0.0 && y < 0.0 { MulLt(0.0, x, -y); }
    if x < 0.0 && y < 0.0 { MulLt(x, 0.0, -y); }
  }

  /** A displacement stays a finite number through a frame exactly when it is one and
      both `staticity` and `ease` are nonzero: a zero staticity makes the target
      infinite (or NaN), a zero ease divides the step by zero, and NaN and the
      infinities never turn finite again. */
  lemma TranslationStaysFinite(c: Circle, env: Env)
    requires EnvOk(env) && CircleOk(c)
    ensures Step(c, env).translateX.Fin? <==> c.translateX.Fin? && env.staticity != 0.0 && env.ease != 0.0
    ensures Step(c, env).translateY.Fin? <==> c.translateY.Fin? && env.staticity != 0.0 && env.ease != 0.0
  {
  }

  /** A particle whose displacement is NaN or infinite has an edge factor of 0, so it
      is drawn fully transparent, and its displacement stays non-finite. */
  lemma BrokenTranslationInvisible(c: Circle, env: Env)
    requires EnvOk(env) && CircleOk(c)
    requires !c.translateX.Fin? || !c.translateY.Fin?
    ensures Step(c, env).alpha == 0.0
    ensures !Step(c, env).translateX.Fin? || !Step(c, env).translateY.Fin?
  {
  }

  /** With `staticity` or `ease` set to 0 every particle, spawned with no displacement,
      is transparent from its second frame on: the first frame breaks the displacement
      and the second draws it with opacity 0. */
  lemma ZeroPropBlanks(c: Circle, env: Env)
    requires EnvOk(env) && CircleOk(c) && c.translateX == Fin(0.0) && c.translateY == Fin(0.0)
    requires env.staticity == 0.0 || env.ease == 0.0
    ensures Step(Step(c, env), env).alpha == 0.0
  {
    TranslationStaysFinite(c, env);
    BrokenTranslationInvisible(Step(c, env), env);
  }

  /** In every frame each displacement coordinate moves towards the pointer's attraction
      without overshooting it (for ease at least 1), closing the gap by the factor
      1 - 1/ease. */
  lemma StepEasesTowardsPointer(c: Circle, env: Env)
    requires EnvOk(env) && CircleOk(c) && env.ease >= 1.0 && env.staticity != 0.0
    requires c.translateX.Fin? && c.translateY.Fin?
    ensures var r := Step(c, env);
            && r.translateX.Fin? && r.translateY.Fin?
            && EasesTowards(c.translateX.v, Attraction(env.mouseX, env.staticity, c.magnetism).v, r.translateX.v, env.ease)
            && EasesTowards(c.translateY.v, Attraction(env.mouseY, env.staticity, c.magnetism).v, r.translateY.v, env.ease)
  {
    var tx, ty := Attraction(env.mouseX, env.staticity, c.magnetism), Attraction(env.mouseY, env.staticity, c.magnetism);
    SmoothingBetween(c.translateX.v, tx.v, env.ease);
    SmoothingBetween(c.translateY.v, ty.v, env.ease);
  }

  /** The new opacity for an edge factor `edge`: away from the edges (factor above 1) it
      rises by 0.02 without passing the target, near them it is the target scaled by
      the factor, so a particle touching an edge is invisible. */
  function Fade(alpha: real, target: real, edge: real): (a: real)
    requires 0.0 <= alpha <= target && edge >= 0.0
    ensures 0.0 <= a <= target
    ensures edge > 1.0 ==> alpha <= a && (a == target || a == alpha + 0.02)
    ensures edge <= 1.0 ==> a == target * edge
    ensures edge == 0.0 ==> a == 0.0
  {
    if edge > 1.0 then (if alpha + 0.02 > target then target else alpha + 0.02)
    else
      assert target * edge <= target by {
        assert target - target * edge == target * (1.0 - edge);
        MulNonNeg(target, 1.0 - edge);
      }
      MulNonNeg(target, edge);
      target * edge
  }

  lemma MulNonNeg(a: real, b: real)
    requires a >= 0.0 && b >= 0.0
    ensures a * b >= 0.0
  {
  }

  /** `next` lies between `current` and `target`, and its distance to the target is
      the old distance times 1 - 1/ease. */
  predicate EasesTowards(current: real, target: real, next: real, ease: real)
    requires ease > 0.0
  {
    && Min(current, target) <= next <= Max(current, target)
    && next - target == (current - target) * (1.0 - 1.0 / ease)
  }

  /** With ease at least 1 the new displacement lies between the old one and its
      target, and its distance to the target shrinks by the factor 1 - 1/ease. */
  lemma SmoothingBetween(current: real, target: real, ease: real)
    requires ease >= 1.0
    ensures EasesTowards(current, target, EaseStep(current, target, ease), ease)
  {
    var f, d := 1.0 / ease, target - current;
    assert 0.0 < f <= 1.0;
    assert d / ease == d * f;
    ScaledBetween(d, f);
  }

  /** Scaling by a factor in (0, 1] keeps a number between 0 and itself. */
  lemma ScaledBetween(d: real, f: real)
    requires 0.0 < f <= 1.0
    ensures 0.0 <= d ==> 0.0 <= d * f <= d
    ensures d <= 0.0 ==> d <= d * f <= 0.0
  {
    if d >= 0.0 {
      MulNonNeg(d, f);
      MulNonNeg(d, 1.0 - f);
      assert d - d * f == d * (1.0 - f);
    } else {
      MulNonNeg(-d, f);
      MulNonNeg(-d, 1.0 - f);
      assert d * f - d == (-d) * (1.0 - f);
      assert -(d * f) == (-d) * f;
    }
  }

  /** The particle's base position has left [-size, w + size] × [-size, h + size]. */
  predicate Escaped(c: Circle, w: real, h: real)
  {
    var s := c.size as real;
    c.x < -s || c.x > w + s || c.y < -s || c.y > h + s
  }

  /** `count` fresh particles drawn from the random stream from position `from` on. */
  function Spawned(rng: nat -> Spawn, from: nat, count: nat, w: real, h: real): (r: seq<Circle>)
    requires w >= 0.0 && h >= 0.0
    ensures |r| == count && AllOk(r)
    ensures forall i :: 0 <= i < count ==> r[i] == CircleParams(rng(from + i), w, h)
  {
    var r := seq(count, i requires 0 <= i < count => CircleParams(rng(from + i), w, h));
    assert AllOk(r) by {
      forall i | 0 <= i < count ensures CircleOk(r[i]) {
        assert r[i] == CircleParams(rng(from + i), w, h);
      }
    }
    r
  }

  /** What `drawCircle(newCircle)` pushes after an escape: the fresh particle drawn at
      position `drawn` of the stream when a drawing context exists, nothing otherwise. */
  function Pushed(env: Env, rng: nat -> Spawn, drawn: nat): (r: seq<Circle>)
    requires EnvOk(env)
    ensures AllOk(r) && |r| == (if env.hasContext then 1 else 0)
    ensures env.hasContext ==> r[0] == CircleParams(rng(drawn), env.w, env.h)
  {
    if env.hasContext then Spawned(rng, drawn, 1, env.w, env.h) else []
  }

  /** `splice(k, 1)` followed by pushing `added`: the particles below `k` stay where they
      are, the ones above it move down by one, and `added` follows them. */
  function Replace(cs: seq<Circle>, k: nat, added: seq<Circle>): (r: seq<Circle>)
    requires k < |cs| && AllOk(cs) && AllOk(added)
    ensures AllOk(r) && |r| == |cs| - 1 + |added|
    ensures r[..k] == cs[..k]
    ensures forall i :: k <= i < |cs| - 1 ==> r[i] == cs[i + 1]
    ensures r[|cs| - 1..] == added
  {
    var r := cs[..k] + cs[k + 1..] + added;
    assert AllOk(r) by {
      forall i | 0 <= i < |r| ensures CircleOk(r[i]) {
        if i < k {
          assert r[i] == cs[i];
        } else if i < |cs| - 1 {
          assert r[i] == cs[i + 1];
        }
      }
    }
    r
  }

  /** Writing a valid particle back at index `k` keeps every particle valid. */
  lemma UpdateOk(cs: seq<Circle>, k: nat, c: Circle)
    requires k < |cs| && AllOk(cs) && CircleOk(c)
    ensures AllOk(cs[k := c])
  {
    var r := cs[k := c];
    forall i | 0 <= i < |r| ensures CircleOk(r[i]) {
      if i != k {
        assert r[i] == cs[i];
      }
    }
  }

  /** Drawing one more particle extends the spawned sequence by it. */
  lemma SpawnedAppend(rng: nat -> Spawn, from: nat, count: nat, w: real, h: real)
    requires w >= 0.0 && h >= 0.0
    ensures Spawned(rng, from, count + 1, w, h)
              == Spawned(rng, from, count, w, h) + [CircleParams(rng(from + count), w, h)]
  {
  }

  /** The frame loop `circlesRef.current.forEach(...)` from index `k` on, over the first
      `n` indices: forEach visits each index below the length it had on entry that is
      still present; a particle that escapes is spliced out, which shifts the later ones
      down by one, and a fresh particle is pushed at the end; any other particle is
      updated in place. Returns the particles and the position reached in the random
      stream. */
  function ForEachFrom(cs: seq<Circle>, k: nat, n: nat, env: Env, rng: nat -> Spawn, drawn: nat)
    : (res: (seq<Circle>, nat))
    requires EnvOk(env) && AllOk(cs)
    ensures AllOk(res.0) && res.1 >= drawn
    decreases n - k
  {
    if k >= n then (cs, drawn)
    else if k >= |cs| then ForEachFrom(cs, k + 1, n, env, rng, drawn)
    else
      var c := Step(cs[k], env);
      if Escaped(c, env.w, env.h) then
        ForEachFrom(Replace(cs, k, Pushed(env, rng, drawn)), k + 1, n, env, rng, drawn + 1)
      else
        UpdateOk(cs, k, c);
        ForEachFrom(cs[k := c], k + 1, n, env, rng, drawn)
  }

  /** With a drawing context, a frame keeps the number of particles: every particle
      spliced out is matched by exactly one pushed. */
  lemma {:induction false} FrameKeepsCount(cs: seq<Circle>, k: nat, n: nat, env: Env, rng: nat -> Spawn, drawn: nat)
    requires EnvOk(env) && AllOk(cs) && env.hasContext
    ensures |ForEachFrom(cs, k, n, env, rng, drawn).0| == |cs|
    decreases n - k
  {
    if k < n {
      if k >= |cs| {
        FrameKeepsCount(cs, k + 1, n, env, rng, drawn);
      } else {
        var c := Step(cs[k], env);
        if Escaped(c, env.w, env.h) {
          FrameKeepsCount(Replace(cs, k, Pushed(env, rng, drawn)), k + 1, n, env, rng, drawn + 1);
        } else {
          UpdateOk(cs, k, c);
          FrameKeepsCount(cs[k := c], k + 1, n, env, rng, drawn);
        }
      }
    }
  }

  /** Without a drawing context nothing is pushed: each escape shrinks the array by one,
      and the stream advances by exactly the number of particles lost. */
  lemma {:induction false} FrameWithoutContext(cs: seq<Circle>, k: nat, n: nat, env: Env, rng: nat -> Spawn, drawn: nat)
    requires EnvOk(env) && AllOk(cs) && !env.hasContext
    ensures var res := ForEachFrom(cs, k, n, env, rng, drawn);
            |res.0| <= |cs| && res.1 - drawn == |cs| - |res.0|
    decreases n - k
  {
    if k < n {
      if k >= |cs| {
        FrameWithoutContext(cs, k + 1, n, env, rng, drawn);
      } else {
        var c := Step(cs[k], env);
        if Escaped(c, env.w, env.h) {
          FrameWithoutContext(Replace(cs, k, Pushed(env, rng, drawn)), k + 1, n, env, rng, drawn + 1);
        } else {
          UpdateOk(cs, k, c);
          FrameWithoutContext(cs[k := c], k + 1, n, env, rng, drawn);
        }
      }
    }
  }

  /** The frame never touches the particles below the index it has reached. */
  lemma {:induction false} FrameKeepsPrefix(cs: seq<Circle>, k: nat, n: nat, env: Env, rng: nat -> Spawn, drawn: nat)
    requires EnvOk(env) && AllOk(cs) && k <= |cs|
    ensures var r := ForEachFrom(cs, k, n, env, rng, drawn).0;
            k <= |r| && r[..k] == cs[..k]
    decreases n - k, 1
  {
    if k < n {
      if k >= |cs| {
        FrameBeyondEnd(cs, k, n, env, rng, drawn);
      } else if Escaped(Step(cs[k], env), env.w, env.h) {
        EscapeKeepsPrefix(cs, k, n, env, rng, drawn);
      } else {
        UpdateKeepsPrefix(cs, k, n, env, rng, drawn);
      }
    }
  }

  /** The update case of FrameKeepsPrefix: only index `k` is written. */
  lemma {:induction false} UpdateKeepsPrefix(cs: seq<Circle>, k: nat, n: nat, env: Env, rng: nat -> Spawn, drawn: nat)
    requires EnvOk(env) && AllOk(cs) && k < |cs| && k < n
    requires !Escaped(Step(cs[k], env), env.w, env.h)
    ensures var r := ForEachFrom(cs, k, n, env, rng, drawn).0;
            k <= |r| && r[..k] == cs[..k]
    decreases n - k, 0
  {
    var c := Step(cs[k], env);
    UpdateOk(cs, k, c);
    assert ForEachFrom(cs, k, n, env, rng, drawn) == ForEachFrom(cs[k := c], k + 1, n, env, rng, drawn);
    FrameKeepsPrefix(cs[k := c], k + 1, n, env, rng, drawn);
    assert cs[k := c][..k + 1][..k] == cs[..k];
  }

  /** The escape case of FrameKeepsPrefix: the splice and push happen above `k`. */
  lemma {:induction false} EscapeKeepsPrefix(cs: seq<Circle>, k: nat, n: nat, env: Env, rng: nat -> Spawn, drawn: nat)
    requires EnvOk(env) && AllOk(cs) && k < |cs| && k < n
    requires Escaped(Step(cs[k], env), env.w, env.h)
    ensures var r := ForEachFrom(cs, k, n, env, rng, drawn).0;
            k <= |r| && r[..k] == cs[..k]
    decreases n - k, 0
  {
    var rest := Replace(cs, k, Pushed(env, rng, drawn));
    EscapeUnfolds(cs, k, n, env, rng, drawn);
    if k + 1 <= |rest| {
      FrameKeepsPrefix(rest, k + 1, n, env, rng, drawn + 1);
      assert rest[..k + 1][..k] == rest[..k];
    } else {
      FrameBeyondEnd(rest, k + 1, n, env, rng, drawn + 1);
    }
  }

  /** The frame's step at an index whose particle escapes: splice, push, move on. */
  lemma EscapeUnfolds(cs: seq<Circle>, k: nat, n: nat, env: Env, rng: nat -> Spawn, drawn: nat)
    requires EnvOk(env) && AllOk(cs) && k < |cs| && k < n
    requires Escaped(Step(cs[k], env), env.w, env.h)
    ensures ForEachFrom(cs, k, n, env, rng, drawn)
            == ForEachFrom(Replace(cs, k, Pushed(env, rng, drawn)), k + 1, n, env, rng, drawn + 1)
  {
  }

  /** The frame's step at an index whose particle stays: it is replaced by its update. */
  lemma StayUnfolds(cs: seq<Circle>, k: nat, n: nat, env: Env, rng: nat -> Spawn, drawn: nat)
    requires EnvOk(env) && AllOk(cs) && k < |cs| && k < n
    requires !Escaped(Step(cs[k], env), env.w, env.h)
    ensures AllOk(cs[k := Step(cs[k], env)])
    ensures ForEachFrom(cs, k, n, env, rng, drawn) == ForEachFrom(cs[k := Step(cs[k], env)], k + 1, n, env, rng, drawn)
  {
    UpdateOk(cs, k, Step(cs[k], env));
  }

  /** One call of the forEach callback, at index `k`: an index past the end is not
      visited; a particle that escapes is spliced out and a fresh one pushed; any other
      particle is updated in place. The rest of the frame continues from the result. */
  method VisitIndex(cs: seq<Circle>, k: nat, n: nat, env: Env, rng: nat -> Spawn, drawn: nat)
    returns (next: seq<Circle>, reached: nat)
    requires EnvOk(env) && AllOk(cs) && k < n
    ensures AllOk(next)
    ensures ForEachFrom(next, k + 1, n, env, rng, reached) == ForEachFrom(cs, k, n, env, rng, drawn)
  {
    next, reached := cs, drawn;
    if k < |cs| {
      var c := Step(cs[k], env);
      if Escaped(c, env.w, env.h) {
        EscapeUnfolds(cs, k, n, env, rng, drawn);
        next, reached := Replace(cs, k, Pushed(env, rng, drawn)), drawn + 1;
      } else {
        StayUnfolds(cs, k, n, env, rng, drawn);
        next := cs[k := c];
      }
    }
  }

  /** Indices at or past the end are skipped: nothing changes. */
  lemma {:induction false} FrameBeyondEnd(cs: seq<Circle>, k: nat, n: nat, env: Env, rng: nat -> Spawn, drawn: nat)
    requires EnvOk(env) && AllOk(cs) && k >= |cs|
    ensures ForEachFrom(cs, k, n, env, rng, drawn) == (cs, drawn)
    decreases n - k
  {
    if k < n {
      FrameBeyondEnd(cs, k + 1, n, env, rng, drawn);
    }
  }

  /** The particle right after one that escapes is skipped in that frame: it moves down
      into the freed index, which forEach has already visited, and ends the frame as
      it was, neither drifted nor faded. */
  lemma FrameSkipsNext(cs: seq<Circle>, k: nat, n: nat, env: Env, rng: nat -> Spawn, drawn: nat)
    requires EnvOk(env) && AllOk(cs) && k + 1 < |cs| && k < n
    requires Escaped(Step(cs[k], env), env.w, env.h)
    ensures var r := ForEachFrom(cs, k, n, env, rng, drawn).0;
            k < |r| && r[k] == cs[k + 1]
  {
    var rest := Replace(cs, k, Pushed(env, rng, drawn));
    assert ForEachFrom(cs, k, n, env, rng, drawn) == ForEachFrom(rest, k + 1, n, env, rng, drawn + 1);
    FrameKeepsPrefix(rest, k + 1, n, env, rng, drawn + 1);
    var r := ForEachFrom(rest, k + 1, n, env, rng, drawn + 1).0;
    assert r[k] == r[..k + 1][k] == rest[..k + 1][k] == rest[k];
  }

  /** Of two particles, when the first steps beyond the right edge the second takes its
      index unstepped. */
  lemma SecondSkipped(env: Env, gone: Circle, next: Circle, rng: nat -> Spawn)
    requires EnvOk(env) && CircleOk(gone) && CircleOk(next) && gone.x + gone.dx > env.w + 2.0
    ensures var r := ForEachFrom([gone, next], 0, 2, env, rng, 0).0;
            0 < |r| && r[0] == next
  {
    assert Escaped(Step(gone, env), env.w, env.h);
    FrameSkipsNext([gone, next], 0, 2, env, rng, 0);
  }

  /** A concrete frame showing the skip: the first of two particles starts beyond the
      right edge of a 100×100 canvas; the second, which drifts by 0.05 per frame,
      ends the frame still at x = 50. */
  lemma FrameSkipExample(env: Env, gone: Circle, next: Circle, rng: nat -> Spawn)
    requires env == Env(100.0, 100.0, 0.0, 0.0, 50.0, 50.0, true)
    requires gone == Circle(200.0, 50.0, Fin(0.0), Fin(0.0), 1, 0.0, 0.5, 0.0, 0.0, 1.0)
    requires next == Circle(50.0, 50.0, Fin(0.0), Fin(0.0), 1, 0.0, 0.5, 0.05, 0.0, 1.0)
    ensures var r := ForEachFrom([gone, next], 0, 2, env, rng, 0).0;
            0 < |r| && r[0] == next && Step(next, env).x == 50.05
  {
    SecondSkipped(env, gone, next, rng);
  }

  /** The survivors of a frame in which every particle is stepped exactly once, in order. */
  function Survivors(cs: seq<Circle>, env: Env): (r: seq<Circle>)
    requires EnvOk(env) && AllOk(cs)
    ensures AllOk(r) && |r| <= |cs|
  {
    if cs == [] then []
    else
      var c := Step(cs[0], env);
      (if Escaped(c, env.w, env.h) then [] else [c]) + Survivors(cs[1..], env)
  }

  /** The number of particles that escape when each is stepped once. */
  function EscapeCount(cs: seq<Circle>, env: Env): (m: nat)
    requires EnvOk(env) && AllOk(cs)
    ensures m + |Survivors(cs, env)| == |cs|
  {
    if cs == [] then 0
    else (if Escaped(Step(cs[0], env), env.w, env.h) then 1 else 0) + EscapeCount(cs[1..], env)
  }

  lemma ConcatOk(cs: seq<Circle>, ds: seq<Circle>)
    requires AllOk(cs) && AllOk(ds)
    ensures AllOk(cs + ds)
  {
    var t := cs + ds;
    forall i | 0 <= i < |t| ensures CircleOk(t[i]) {
      if i < |cs| {
        assert t[i] == cs[i];
      } else {
        assert t[i] == ds[i - |cs|];
      }
    }
  }

  lemma AppendOk(cs: seq<Circle>, c: Circle)
    requires AllOk(cs) && CircleOk(c)
    ensures AllOk(cs + [c])
  {
    var t := cs + [c];
    forall i | 0 <= i < |t| ensures CircleOk(t[i]) {
      if i < |cs| {
        assert t[i] == cs[i];
      }
    }
  }

  lemma {:induction false} SurvivorsAppend(cs: seq<Circle>, c: Circle, env: Env)
    requires EnvOk(env) && AllOk(cs) && CircleOk(c)
    ensures AllOk(cs + [c])
    ensures Survivors(cs + [c], env)
              == Survivors(cs, env) + (if Escaped(Step(c, env), env.w, env.h) then [] else [Step(c, env)])
  {
    var t := cs + [c];
    AppendOk(cs, c);
    if cs == [] {
      assert t == [c] && t[1..] == [];
    } else {
      assert t[0] == cs[0] && t[1..] == cs[1..] + [c];
      SurvivorsAppend(cs[1..], c, env);
    }
  }

  lemma {:induction false} EscapeCountAppend(cs: seq<Circle>, c: Circle, env: Env)
    requires EnvOk(env) && AllOk(cs) && CircleOk(c)
    ensures AllOk(cs + [c])
    ensures EscapeCount(cs + [c], env) == EscapeCount(cs, env) + (if Escaped(Step(c, env), env.w, env.h) then 1 else 0)
  {
    var t := cs + [c];
    AppendOk(cs, c);
    if cs == [] {
      assert t == [c] && t[1..] == [];
    } else {
      assert t[0] == cs[0] && t[1..] == cs[1..] + [c];
      EscapeCountAppend(cs[1..], c, env);
    }
  }

  /** Stepping one more particle of `cs` extends the survivors and the escape count of
      the prefix before it. */
  lemma SurvivorsPrefix(cs: seq<Circle>, i: nat, env: Env)
    requires EnvOk(env) && AllOk(cs) && i < |cs|
    ensures AllOk(cs[..i]) && AllOk(cs[..i + 1])
    ensures var c := Step(cs[i], env);
            && Survivors(cs[..i + 1], env) == Survivors(cs[..i], env) + (if Escaped(c, env.w, env.h) then [] else [c])
            && EscapeCount(cs[..i + 1], env) == EscapeCount(cs[..i], env) + (if Escaped(c, env.w, env.h) then 1 else 0)
  {
    assert cs[..i + 1] == cs[..i] + [cs[i]];
    SurvivorsAppend(cs[..i], cs[i], env);
    EscapeCountAppend(cs[..i], cs[i], env);
  }

  /** Every survivor is an input particle stepped once: its base position is the input's
      moved by its drift. */
  lemma {:induction false} SurvivorsStepped(cs: seq<Circle>, env: Env, i: nat)
    requires EnvOk(env) && AllOk(cs) && i < |Survivors(cs, env)|
    ensures exists j :: 0 <= j < |cs| && Survivors(cs, env)[i] == Step(cs[j], env)
  {
    var c := Step(cs[0], env);
    var r, tail := Survivors(cs, env), Survivors(cs[1..], env);
    var escaped := Escaped(c, env.w, env.h);
    assert r == (if escaped then [] else [c]) + tail;
    if !escaped && i == 0 {
      assert r[0] == Step(cs[0], env);
    } else {
      var k := if escaped then i else i - 1;
      assert r[i] == tail[k];
      SurvivorsStepped(cs[1..], env, k);
      var j :| 0 <= j < |cs[1..]| && tail[k] == Step(cs[1..][j], env);
      assert cs[1..][j] == cs[j + 1];
      assert r[i] == Step(cs[j + 1], env);
    }
  }

  /** One pass over the particles, each moved by one step: the survivors are kept in
      order, and every escaped particle draws the next spawn of the stream. */
  method StepEach(cs: seq<Circle>, env: Env, rng: nat -> Spawn, start: nat)
    returns (kept: seq<Circle>, added: seq<Circle>, count: nat)
    requires EnvOk(env) && AllOk(cs)
    ensures kept == Survivors(cs, env)
    ensures count == EscapeCount(cs, env)
    ensures added == Spawned(rng, start, count, env.w, env.h)
  {
    kept, added, count := [], [], 0;
    for i := 0 to |cs|
      invariant AllOk(cs[..i])
      invariant count == EscapeCount(cs[..i], env)
      invariant kept == Survivors(cs[..i], env)
      invariant added == Spawned(rng, start, count, env.w, env.h)
    {
      kept, added, count := StepOneMore(cs, env, rng, start, i, kept, added, count);
    }
    assert cs[..|cs|] == cs;
  }

  /** One iteration of `StepEach`: particle `i` either survives, and its update joins
      `kept`, or escapes, and one more fresh particle joins `added`. */
  method StepOneMore(cs: seq<Circle>, env: Env, rng: nat -> Spawn, start: nat, i: nat,
                     kept: seq<Circle>, added: seq<Circle>, count: nat)
    returns (kept': seq<Circle>, added': seq<Circle>, count': nat)
    requires EnvOk(env) && AllOk(cs) && i < |cs|
    requires AllOk(cs[..i]) && count == EscapeCount(cs[..i], env) && kept == Survivors(cs[..i], env)
    requires added == Spawned(rng, start, count, env.w, env.h)
    ensures AllOk(cs[..i + 1])
    ensures count' == EscapeCount(cs[..i + 1], env) && kept' == Survivors(cs[..i + 1], env)
    ensures added' == Spawned(rng, start, count', env.w, env.h)
  {
    var c := Step(cs[i], env);
    SurvivorsPrefix(cs, i, env);
    kept', added', count' := kept, added, count;
    if Escaped(c, env.w, env.h) {
      SpawnedAppend(rng, start, count, env.w, env.h);
      added' := added + [CircleParams(rng(start + count), env.w, env.h)];
      count' := count + 1;
    } else {
      kept' := kept + [c];
    }
  }

  // ---------------------------------------------------------------------------
  // The component's state

  /** The particle field: the props `quantity`, `staticity` and `ease`, whether a 2-D
      context exists, the canvas size, the recorded pointer position (relative to the
      canvas centre), the particle array and how many random spawns were drawn. */
  class ParticleField {
    const quantity: nat
    const staticity: real
    const ease: real
    const hasContext: bool
    var w: real
    var h: real
    var mouseX: real
    var mouseY: real
    var circles: seq<Circle>
    var drawn: nat

    ghost predicate Valid()
      reads this
    {
      EnvOk(CurrentEnv()) && AllOk(circles)
    }

    function CurrentEnv(): Env
      reads this
    {
      Env(w, h, mouseX, mouseY, staticity, ease, hasContext)
    }

    /** Mounting, before the canvas is sized: no particles, the pointer at the origin. */
    constructor (quantity: nat, staticity: real, ease: real, hasContext: bool)
      ensures Valid()
      ensures this.quantity == quantity && this.staticity == staticity && this.ease == ease
      ensures this.hasContext == hasContext
      ensures w == 0.0 && h == 0.0 && mouseX == 0.0 && mouseY == 0.0 && circles == [] && drawn == 0
    {
      this.quantity := quantity;
      this.staticity := staticity;
      this.ease := ease;
      this.hasContext := hasContext;
      w, h, mouseX, mouseY := 0.0, 0.0, 0.0, 0.0;
      circles := [];
      drawn := 0;
    }

    /** `handleMouseMove`: with a canvas, the pointer position relative to the canvas
        centre is recorded only when strictly inside the canvas. */
    method HandleMouseMove(clientX: real, clientY: real, canvasOrigin: Option<(real, real)>)
      requires Valid()
      modifies this`mouseX, this`mouseY
      ensures Valid()
      ensures var recorded := canvasOrigin.Some?
                && -w / 2.0 < clientX - canvasOrigin.value.0 - w / 2.0 < w / 2.0
                && -h / 2.0 < clientY - canvasOrigin.value.1 - h / 2.0 < h / 2.0;
              && (recorded ==> mouseX == clientX - canvasOrigin.value.0 - w / 2.0
                               && mouseY == clientY - canvasOrigin.value.1 - h / 2.0)
              && (!recorded ==> mouseX == old(mouseX) && mouseY == old(mouseY))
      ensures mouseX != old(mouseX) || mouseY != old(mouseY) ==>
                -w / 2.0 < mouseX < w / 2.0 && -h / 2.0 < mouseY < h / 2.0
    {
      if canvasOrigin.Some? {
        var x := clientX - canvasOrigin.value.0 - w / 2.0;
        var y := clientY - canvasOrigin.value.1 - h / 2.0;
        var inside := x < w / 2.0 && x > -w / 2.0 && y < h / 2.0 && y > -h / 2.0;
        if inside {
          mouseX := x;
          mouseY := y;
        }
      }
    }

    /** `drawParticles`: empties the array and spawns `quantity` particles, each drawn
        from the random stream; they are kept only when there is a context. */
    method DrawParticles(rng: nat -> Spawn)
      requires Valid()
      modifies this`circles, this`drawn
      ensures Valid()
      ensures circles == if hasContext then Spawned(rng, old(drawn), quantity, w, h) else []
      ensures drawn == old(drawn) + quantity
    {
      circles := [];
      var i := 0;
      while i < quantity
        invariant 0 <= i <= quantity && drawn == old(drawn) + i
        invariant circles == if hasContext then Spawned(rng, old(drawn), i, w, h) else []
        invariant Valid()
      {
        var circle := CircleParams(rng(drawn), w, h);
        drawn := drawn + 1;
        if hasContext {
          SpawnedAppend(rng, old(drawn), i, w, h);
          circles := circles + [circle];
        }
        i := i + 1;
      }
    }

    /** `initCanvas` (on mount and on window resize): with a context the canvas takes the
        container's size and the array is emptied; then the particles are redrawn. */
    method InitCanvas(width: real, height: real, rng: nat -> Spawn)
      requires Valid() && width >= 0.0 && height >= 0.0
      modifies this`w, this`h, this`circles, this`drawn
      ensures Valid()
      ensures hasContext ==> w == width && h == height && |circles| == quantity
      ensures hasContext ==> circles == Spawned(rng, old(drawn), quantity, width, height)
      ensures !hasContext ==> w == old(w) && h == old(h) && circles == []
      ensures drawn == old(drawn) + quantity
    {
      if hasContext {
        circles := [];
        w, h := width, height;
      }
      DrawParticles(rng);
    }

    /** `animate`, one frame, as written: the forEach loop steps the particle at each
        index, splicing out an escaped one and pushing a fresh one. */
    method Animate(rng: nat -> Spawn)
      requires Valid()
      modifies this`circles, this`drawn
      ensures Valid()
      ensures (circles, drawn) == ForEachFrom(old(circles), 0, |old(circles)|, CurrentEnv(), rng, old(drawn))
      ensures hasContext ==> |circles| == |old(circles)|
    {
      var env := CurrentEnv();
      var n := |circles|;
      var cs, d := circles, drawn;
      for k := 0 to n
        invariant AllOk(cs)
        invariant ForEachFrom(cs, k, n, env, rng, d) == ForEachFrom(old(circles), 0, n, env, rng, old(drawn))
      {
        cs, d := VisitIndex(cs, k, n, env, rng, d);
      }
      if env.hasContext {
        FrameKeepsCount(old(circles), 0, n, env, rng, old(drawn));
      }
      circles, drawn := cs, d;
    }

    /** The frame as evidently intended: every particle is stepped exactly once; the
        survivors keep their order and one fresh particle is appended per escaped one. */
    method AnimateEachOnce(rng: nat -> Spawn)
      requires Valid()
      modifies this`circles, this`drawn
      ensures Valid()
      ensures drawn == old(drawn) + EscapeCount(old(circles), CurrentEnv())
      ensures circles == Survivors(old(circles), CurrentEnv())
                         + (if hasContext then Spawned(rng, old(drawn), drawn - old(drawn), w, h) else [])
      ensures hasContext ==> |circles| == |old(circles)|
    {
      var env := CurrentEnv();
      var kept, added, count := StepEach(circles, env, rng, drawn);
      var next := kept + (if env.hasContext then added else []);
      ConcatOk(kept, if env.hasContext then added else []);
      assert env.hasContext ==> |next| == |circles|;
      circles, drawn := next, drawn + count;
      assert CurrentEnv() == env;
    }
  }
}
