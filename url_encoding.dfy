/**
 * The `application/x-www-form-urlencoded` serializer of section 5.2 of the
 * WHATWG URL Standard, which `URLSearchParams.prototype.toString` runs: each
 * name and value is encoded as UTF-8, every byte outside ASCII alphanumerics
 * and `*-._` is written `%XX` (upper-case hex) except the space byte, which
 * becomes `+`; pairs are written `name=value` and joined with `&`.
 *
 * The parser of section 5.1 is given for ASCII text as a reference, to show
 * that the query strings the app builds read back as the pairs it set.
 */
module FormUrlEncoding {
  import opened JsText

  /** UTF-8 encoding of one Unicode scalar value. */
  function Utf8(c: char): (bytes: seq<nat>)
    ensures 1 <= |bytes| <= 4
    ensures forall i :: 0 <= i < |bytes| ==> bytes[i] < 256
    ensures c as int < 0x80 <==> bytes == [c as int]
    ensures c as int >= 0x80 ==> forall i :: 0 <= i < |bytes| ==> bytes[i] >= 0x80
  {
    var cp := c as int;
    if cp < 0x80 then [cp]
    else if cp < 0x800 then [0xC0 + cp / 64, 0x80 + cp % 64]
    else if cp < 0x10000 then [0xE0 + cp / 4096, 0x80 + (cp / 64) % 64, 0x80 + cp % 64]
    else [0xF0 + cp / 262144, 0x80 + (cp / 4096) % 64, 0x80 + (cp / 64) % 64, 0x80 + cp % 64]
  }

  /** Bytes written as themselves: ASCII alphanumerics and `*`, `-`, `.`, `_`. */
  predicate Unreserved(b: nat) {
    || (0x30 <= b <= 0x39) || (0x41 <= b <= 0x5A) || (0x61 <= b <= 0x7A)
    || b == 0x2A || b == 0x2D || b == 0x2E || b == 0x5F
  }

  /** Characters the serializer can produce. */
  predicate SafeChar(c: char) {
    Unreserved(c as int) || c == '+' || c == '%' || IsHexDigit(c)
  }

  function EncodeByte(b: nat): (s: string)
    requires b < 256
    ensures forall i :: 0 <= i < |s| ==> SafeChar(s[i])
  {
    if b == 0x20 then "+"
    else if Unreserved(b) then [b as char]
    else ['%', HexDigitChar(b / 16), HexDigitChar(b % 16)]
  }

  function EncodeBytes(bytes: seq<nat>): (s: string)
    requires forall i :: 0 <= i < |bytes| ==> bytes[i] < 256
    ensures forall i :: 0 <= i < |s| ==> SafeChar(s[i])
  {
    if bytes == [] then "" else EncodeByte(bytes[0]) + EncodeBytes(bytes[1..])
  }

  /** The urlencoded form of one name or value. */
  function Encode(s: string): (r: string)
    ensures forall i :: 0 <= i < |r| ==> SafeChar(r[i])
  {
    if s == [] then "" else EncodeBytes(Utf8(s[0])) + Encode(s[1..])
  }

  /** The serializer's output for a list of pairs. */
  function Serialize(pairs: seq<(string, string)>): (s: string)
    ensures s == "" <==> pairs == []
  {
    if pairs == [] then ""
    else if |pairs| == 1 then Encode(pairs[0].0) + "=" + Encode(pairs[0].1)
    else Encode(pairs[0].0) + "=" + Encode(pairs[0].1) + "&" + Serialize(pairs[1..])
  }

  /** An encoded name or value never contains the separators `&` and `=`, so
      the serialized pairs can always be told apart. */
  lemma EncodeHasNoSeparators(s: string)
    ensures '&' !in Encode(s) && '=' !in Encode(s)
  {
  }

  /* ---------------- reading back (ASCII text) ---------------- */

  predicate IsAscii(s: string) {
    forall i :: 0 <= i < |s| ==> s[i] as int < 0x80
  }

  /** Percent-decoding with `+` read as a space, for text whose decoded bytes
      are ASCII. */
  function Decode(s: string): string
  {
    if s == [] then ""
    else if s[0] == '%' && |s| >= 3 && IsHexDigit(s[1]) && IsHexDigit(s[2]) then
      [(HexDigitValue(s[1]) * 16 + HexDigitValue(s[2])) as char] + Decode(s[3..])
    else if s[0] == '+' then " " + Decode(s[1..])
    else [s[0]] + Decode(s[1..])
  }

  lemma DecodeEncodedAscii(c: char, rest: string)
    requires c as int < 0x80
    ensures Decode(EncodeBytes(Utf8(c)) + rest) == [c] + Decode(rest)
  {
    var b := c as int;
    assert Utf8(c) == [b];
    assert EncodeBytes(Utf8(c)) == EncodeByte(b);
    var e := EncodeByte(b);
    if b == 0x20 {
      assert (e + rest)[1..] == rest;
    } else if Unreserved(b) {
      assert (e + rest)[1..] == rest;
      assert (b as char) == c;
    } else {
      assert (e + rest)[3..] == rest;
      assert b / 16 * 16 + b % 16 == b;
    }
  }

  /** Decoding an encoded ASCII string gives the string back. */
  lemma {:induction false} DecodeEncode(s: string)
    requires IsAscii(s)
    ensures Decode(Encode(s)) == s
  {
    if s != [] {
      DecodeEncodedAscii(s[0], Encode(s[1..]));
      DecodeEncode(s[1..]);
    }
  }

  /** One `name=value` sequence of the parser: split at the first `=`. */
  function ParsePair(s: string): (string, string) {
    var k := IndexOf(s, '=');
    if k == |s| then (Decode(s), "") else (Decode(s[..k]), Decode(s[k + 1..]))
  }

  /** The urlencoded parser: split on `&`, skip empty sequences, split each at
      its first `=` and decode both halves. */
  function Parse(q: string): seq<(string, string)> {
    ParseParts(SplitOn(q, '&'))
  }

  function ParseParts(parts: seq<string>): seq<(string, string)> {
    if parts == [] then []
    else if parts[0] == "" then ParseParts(parts[1..])
    else [ParsePair(parts[0])] + ParseParts(parts[1..])
  }

  predicate AsciiPairs(pairs: seq<(string, string)>) {
    forall i :: 0 <= i < |pairs| ==> IsAscii(pairs[i].0) && IsAscii(pairs[i].1)
  }

  lemma ParsePairEncoded(n: string, v: string)
    requires IsAscii(n) && IsAscii(v)
    ensures ParsePair(Encode(n) + "=" + Encode(v)) == (n, v)
  {
    EncodeHasNoSeparators(n);
    IndexOfAfter(Encode(n), '=', Encode(v));
    var s := Encode(n) + "=" + Encode(v);
    assert s[..|Encode(n)|] == Encode(n);
    assert s[|Encode(n)| + 1..] == Encode(v);
    DecodeEncode(n);
    DecodeEncode(v);
  }

  /** Serialized ASCII pairs parse back to the same pairs, in order. */
  lemma {:induction false} ParseSerialize(pairs: seq<(string, string)>)
    requires AsciiPairs(pairs)
    ensures Parse(Serialize(pairs)) == pairs
  {
    if pairs == [] {
      assert SplitOn("", '&') == [""];
      assert ParseParts([""]) == ParseParts([""][1..]);
    } else {
      var (n, v) := pairs[0];
      var head := Encode(n) + "=" + Encode(v);
      EncodeHasNoSeparators(n);
      EncodeHasNoSeparators(v);
      assert '&' !in head;
      assert head != "";
      ParsePairEncoded(n, v);
      if |pairs| == 1 {
        assert Serialize(pairs) == head;
        SplitOnFree(head, '&');
        assert SplitOn(head, '&') == [head];
        assert ParseParts([head]) == [ParsePair(head)] + ParseParts([head][1..]);
        assert [head][1..] == [];
      } else {
        assert Serialize(pairs) == head + "&" + Serialize(pairs[1..]);
        SplitOnJoined(head, '&', Serialize(pairs[1..]));
        ParseSerialize(pairs[1..]);
        assert ParseParts(SplitOn(Serialize(pairs[1..]), '&')) == pairs[1..];
      }
    }
  }
}
