/**
 * The dashboard card's colour helper: `hexToRgba` turns a hex colour into a
 * CSS `rgba(...)` string, and the card builds its three-stop gradient from
 * its base colour.
 */
module Card {
  import opened Optional
  import opened JsText
  import opened Arith

  predicate AllHex(s: string) {
    forall i :: 0 <= i < |s| ==> IsHexDigit(s[i])
  }

  /** The value of a string of hexadecimal digits. */
  function HexValue(s: string): (v: nat)
    requires AllHex(s)
  {
    if s == [] then 0 else HexValue(s[..|s| - 1]) * 16 + HexDigitValue(s[|s| - 1])
  }

  function Pow16(n: nat): (p: nat)
    ensures p >= 1
  {
    if n == 0 then 1 else 16 * Pow16(n - 1)
  }

  /** Values of `|s|` hex digits stay below 16^|s|. */
  lemma {:induction false} HexValueBound(s: string)
    requires AllHex(s)
    ensures HexValue(s) < Pow16(|s|)
  {
    if s != [] {
      HexValueBound(s[..|s| - 1]);
    }
  }

  /** Reading digits is positional: the digits of `b` are the low-order ones. */
  lemma {:induction false} HexValueAppend(a: string, b: string)
    requires AllHex(a) && AllHex(b)
    ensures AllHex(a + b) && HexValue(a + b) == HexValue(a) * Pow16(|b|) + HexValue(b)
  {
    if b == [] {
      assert a + b == a;
    } else {
      var b' := b[..|b| - 1];
      var d := HexDigitValue(b[|b| - 1]);
      HexValueAppend(a, b');
      assert HexValue(a + b) == HexValue(a + b') * 16 + d by {
        assert (a + b)[..|a + b| - 1] == a + b';
        assert (a + b)[|a + b| - 1] == b[|b| - 1];
      }
      assert HexValue(b) == HexValue(b') * 16 + d;
      assert Pow16(|b|) == Pow16(|b'|) * 16;
      ShiftDigit(HexValue(a), Pow16(|b'|), HexValue(b'), d);
    }
  }

  /** One more low-order digit `d` after `x * p + y`. */
  lemma ShiftDigit(x: int, p: int, y: int, d: int)
    ensures (x * p + y) * 16 + d == x * (p * 16) + (y * 16 + d)
  {
  }

  /** Length of the run of hex digits at the front of `s`. */
  function HexPrefixLength(s: string): (k: nat)
    ensures k <= |s| && AllHex(s[..k])
    ensures k < |s| ==> !IsHexDigit(s[k])
  {
    if s == [] || !IsHexDigit(s[0]) then 0
    else
      var j := HexPrefixLength(s[1..]);
      assert s[..j + 1] == [s[0]] + s[1..][..j];
      j + 1
  }

  /** What `parseInt` reads its digits from: leading whitespace skipped, then
      one sign character, then a `0x`/`0X` prefix. */
  function DigitsStart(s: string): (w: string) {
    var t := TrimStart(s);
    var u := if t != [] && (t[0] == '-' || t[0] == '+') then t[1..] else t;
    if |u| >= 2 && u[0] == '0' && (u[1] == 'x' || u[1] == 'X') then u[2..] else u
  }

  predicate Negative(s: string) {
    var t := TrimStart(s);
    t != [] && t[0] == '-'
  }

  /** `parseInt(s, 16)`, with `None` for NaN: the longest run of hex digits
      at `DigitsStart(s)`, negated after a `-`; no digit at all is NaN. */
  function ParseIntHex(s: string): (n: Option<int>)
    ensures n.None? <==> HexPrefixLength(DigitsStart(s)) == 0
  {
    var w := DigitsStart(s);
    var k := HexPrefixLength(w);
    if k == 0 then None
    else
      var v: int := HexValue(w[..k]);
      Some(if Negative(s) then -v else v)
  }

  /** A plain string of hex digits parses to its value. */
  lemma ParseIntHexOfDigits(s: string)
    requires AllHex(s) && s != []
    ensures ParseIntHex(s) == Some(HexValue(s))
  {
    TrimStartOfTrimmed(s);
    assert TrimStart(s) == s;
    assert !Negative(s);
    assert |s| >= 2 ==> IsHexDigit(s[1]);
    assert DigitsStart(s) == s;
    HexPrefixOfAllHex(s);
    assert s[..|s|] == s;
  }

  lemma {:induction false} HexPrefixOfAllHex(s: string)
    requires AllHex(s)
    ensures HexPrefixLength(s) == |s|
  {
    if s != [] {
      HexPrefixOfAllHex(s[1..]);
    }
  }

  const TwoTo32: int := 0x1_0000_0000

  /** The ECMAScript ToInt32 conversion the shift operators apply; NaN
      converts to 0. */
  function ToInt32(n: Option<int>): (v: int)
    ensures -0x8000_0000 <= v < 0x8000_0000
    ensures n.Some? ==> (v - n.value) % TwoTo32 == 0
    ensures n.Some? && 0 <= n.value < 0x8000_0000 ==> v == n.value
    ensures n.None? ==> v == 0
  {
    if n.None? then 0
    else
      var m := n.value % TwoTo32;
      if m >= 0x8000_0000 then m - TwoTo32 else m
  }

  /** `(num >> 16) & 255`, `(num >> 8) & 255` and `num & 255`: an arithmetic
      right shift of the 32-bit value is a floor division, and `& 255` keeps
      the low eight bits of the two's-complement result. */
  function Channels(num: Option<int>): (rgb: (int, int, int))
    ensures 0 <= rgb.0 < 256 && 0 <= rgb.1 < 256 && 0 <= rgb.2 < 256
    ensures num.None? ==> rgb == (0, 0, 0)
  {
    var v := ToInt32(num);
    ((v / 0x1_0000) % 256, (v / 0x100) % 256, v % 256)
  }

  /** `cleaned`: the first `#` removed, then a three-character string
      expanded by doubling each character. */
  function Cleaned(hex: string): string {
    var s := RemoveFirst(hex, '#');
    if |s| == 3 then [s[0], s[0], s[1], s[1], s[2], s[2]] else s
  }

  function Components(hex: string): (int, int, int) {
    Channels(ParseIntHex(Cleaned(hex)))
  }

  /** `hexToRgba(hex, alpha)`, with `alpha` given as the text JavaScript
      writes for it. */
  function HexToRgba(hex: string, alpha: string): (css: string)
    ensures var (r, g, b) := Components(hex);
      css == "rgba(" + NatToString(r) + ", " + NatToString(g) + ", " + NatToString(b) + ", " + alpha + ")"
  {
    var (r, g, b) := Components(hex);
    "rgba(" + IntToString(r) + ", " + IntToString(g) + ", " + IntToString(b) + ", " + alpha + ")"
  }

  /** Only the `#` is dropped: with or without it the colour is the same. */
  lemma HashIsOptional(s: string, alpha: string)
    requires '#' !in s
    ensures HexToRgba("#" + s, alpha) == HexToRgba(s, alpha)
  {
    assert IndexOf("#" + s, '#') == 0;
    assert ("#" + s)[1..] == s;
  }

  /** Three-character shorthand is the six-character colour with each
      character doubled. */
  lemma ShorthandExpands(x: char, y: char, z: char, alpha: string)
    requires x != '#' && y != '#' && z != '#'
    ensures HexToRgba([x, y, z], alpha) == HexToRgba([x, x, y, y, z, z], alpha)
  {
    assert '#' !in [x, y, z];
    assert '#' !in [x, x, y, y, z, z];
  }

  /** For six hex digits the channels are the three bytes of the parsed value:
      each is in 0..255 and together they give the value back. */
  lemma SixDigitChannels(digits: string)
    requires |digits| == 6 && AllHex(digits)
    ensures var rgb := Components("#" + digits); var v := HexValue(digits);
      && rgb == (v / 0x1_0000, (v / 0x100) % 256, v % 256)
      && rgb.0 * 0x1_0000 + rgb.1 * 0x100 + rgb.2 == v
  {
    var v := HexValue(digits);
    assert Cleaned("#" + digits) == digits by {
      assert IndexOf("#" + digits, '#') == 0;
      assert ("#" + digits)[1..] == digits;
    }
    assert ParseIntHex(digits) == Some(v) by { ParseIntHexOfDigits(digits); }
    assert v < 0x100_0000 by {
      HexValueBound(digits);
      assert Pow16(6) == 0x100_0000;
    }
    assert Components("#" + digits) == Channels(Some(v));
    SmallChannels(v);
  }

  /** A value below 2^24 is its own 32-bit value, and its channels are its
      three bytes. */
  lemma SmallChannels(v: nat)
    requires v < 0x100_0000
    ensures Channels(Some(v)) == (v / 0x1_0000, (v / 0x100) % 256, v % 256)
    ensures v == (v / 0x1_0000) * 0x1_0000 + ((v / 0x100) % 256) * 0x100 + v % 256
  {
    assert ToInt32(Some(v)) == v;
    assert (v / 0x1_0000) % 256 == v / 0x1_0000 by {
      DivUnique(v / 0x1_0000, 256, 0, v / 0x1_0000);
    }
    ByteSplit(v);
  }

  lemma NoHashInHex(s: string)
    requires AllHex(s)
    ensures '#' !in s
  {
  }

  lemma ByteSplit(v: nat)
    requires v < 0x100_0000
    ensures v == (v / 0x1_0000) * 0x1_0000 + ((v / 0x100) % 256) * 0x100 + v % 256
  {
    var hi := v / 0x1_0000;
    var rest := v % 0x1_0000;
    var mid := rest / 0x100;
    var lo := rest % 0x100;
    assert v == (hi * 256 + mid) * 0x100 + lo;
    DivUnique(v, 0x100, hi * 256 + mid, lo);
    DivUnique(hi * 256 + mid, 256, hi, mid);
  }

  /** Two upper-case hex digits of a byte. */
  function HexByte(n: nat): (s: string)
    requires n < 256
    ensures |s| == 2 && AllHex(s) && HexValue(s) == n
  {
    var s := [HexDigitChar(n / 16), HexDigitChar(n % 16)];
    assert s[..1][..0] == [] && s[..1] == [s[0]];
    assert HexValue(s[..1]) == n / 16;
    assert HexValue(s) == (n / 16) * 16 + n % 16;
    s
  }

  /** Writing three bytes as `#RRGGBB` and reading the colour back gives the
      same bytes. */
  lemma ChannelsRoundTrip(r: nat, g: nat, b: nat)
    requires r < 256 && g < 256 && b < 256
    ensures Components("#" + (HexByte(r) + HexByte(g) + HexByte(b))) == (r, g, b)
  {
    ThreeBytes(r, g, b);
    var digits := HexByte(r) + HexByte(g) + HexByte(b);
    assert |digits| == 6;
    DigitsOfBytes(digits, r, g, b);
  }

  lemma DigitsOfBytes(digits: string, r: nat, g: nat, b: nat)
    requires r < 256 && g < 256 && b < 256
    requires |digits| == 6 && AllHex(digits) && HexValue(digits) == r * 0x1_0000 + g * 0x100 + b
    ensures Components("#" + digits) == (r, g, b)
  {
    SixDigitChannels(digits);
    var t := Components("#" + digits);
    var v := HexValue(digits);
    assert t.0 == v / 0x1_0000 && t.1 == (v / 0x100) % 256 && t.2 == v % 256;
    BytesOf(v, r, g, b);
    assert t.0 == r;
    assert t.1 == g;
    assert t.2 == b;
  }

  /** The three bytes of `r * 65536 + g * 256 + b`. */
  lemma BytesOf(v: int, r: nat, g: nat, b: nat)
    requires r < 256 && g < 256 && b < 256
    requires v == r * 0x1_0000 + g * 0x100 + b
    ensures v / 0x1_0000 == r && (v / 0x100) % 256 == g && v % 256 == b
  {
    DivUnique(v, 0x1_0000, r, g * 0x100 + b);
    DivUnique(v, 0x100, r * 256 + g, b);
    DivUnique(r * 256 + g, 256, r, g);
  }

  lemma ThreeBytes(r: nat, g: nat, b: nat)
    requires r < 256 && g < 256 && b < 256
    ensures AllHex(HexByte(r) + HexByte(g) + HexByte(b))
    ensures HexValue(HexByte(r) + HexByte(g) + HexByte(b)) == r * 0x1_0000 + g * 0x100 + b
  {
    assert Pow16(2) == 256;
    HexValueAppend(HexByte(r), HexByte(g));
    assert HexValue(HexByte(r) + HexByte(g)) == r * 256 + g;
    HexValueAppend(HexByte(r) + HexByte(g), HexByte(b));
    assert HexValue(HexByte(r) + HexByte(g) + HexByte(b)) == (r * 256 + g) * 256 + b;
  }

  /** Text with no hex digit where `parseInt` starts reading gives NaN, and
      so black. */
  lemma NoDigitsIsBlack(hex: string, alpha: string)
    requires HexPrefixLength(DigitsStart(Cleaned(hex))) == 0
    ensures HexToRgba(hex, alpha) == "rgba(0, 0, 0, " + alpha + ")"
  {
    assert Components(hex) == (0, 0, 0);
    var zero := NatToString(0);
    var prefix := "rgba(" + zero + ", " + zero + ", " + zero + ", ";
    assert prefix == "rgba(0, 0, 0, " by { BlackPrefix(); }
    assert HexToRgba(hex, alpha) == prefix + alpha + ")";
  }

  /** The text of three zero channels. */
  lemma BlackPrefix()
    ensures "rgba(" + NatToString(0) + ", " + NatToString(0) + ", " + NatToString(0) + ", " == "rgba(0, 0, 0, "
  {
    var zero := NatToString(0);
    assert zero == "0";
    var p1 := "rgba(" + zero;
    assert p1 == "rgba(0";
    var p2 := p1 + ", " + zero;
    assert p2 == "rgba(0, 0";
    var p3 := p2 + ", " + zero;
    assert p3 == "rgba(0, 0, 0";
  }

  /** `iconBgColor || "#6C5CE7"`. */
  function BaseColor(iconBgColor: Option<string>): (c: string)
    ensures iconBgColor.Some? && iconBgColor.value != "" ==> c == iconBgColor.value
    ensures iconBgColor.None? || iconBgColor.value == "" ==> c == "#6C5CE7"
  {
    if iconBgColor.Some? && iconBgColor.value != "" then iconBgColor.value else "#6C5CE7"
  }

  /** `gradientColors`: the base colour at alpha 0.18, then at 0.03, then
      transparent. */
  function GradientColors(iconBgColor: Option<string>): (stops: seq<string>)
    ensures |stops| == 3 && stops[2] == "transparent"
    ensures stops[0] == HexToRgba(BaseColor(iconBgColor), "0.18")
    ensures stops[1] == HexToRgba(BaseColor(iconBgColor), "0.03")
  {
    var base := BaseColor(iconBgColor);
    [HexToRgba(base, "0.18"), HexToRgba(base, "0.03"), "transparent"]
  }
}
