/**
 * Text primitives with the meaning ECMAScript gives them: `trim`, the `\s`
 * character class, `split(/\s+/)`, `padStart`, `String(n)` for integers and
 * `startsWith`.  Case mapping is restricted to ASCII letters.
 */
module JsText {

  /** The WhiteSpace and LineTerminator code points of ECMAScript: exactly the
      characters removed by `String.prototype.trim` and matched by `\s`. */
  predicate IsWhitespace(c: char) {
    || c == '\t' || c == '\n' || c == '\U{000B}' || c == '\U{000C}' || c == '\r' || c == ' '
    || c == '\U{00A0}' || c == '\U{1680}' || ('\U{2000}' <= c <= '\U{200A}')
    || c == '\U{2028}' || c == '\U{2029}' || c == '\U{202F}' || c == '\U{205F}'
    || c == '\U{3000}' || c == '\U{FEFF}'
  }

  predicate NoWhitespace(s: string) {
    forall i :: 0 <= i < |s| ==> !IsWhitespace(s[i])
  }

  /** `s` has a character that is not whitespace. */
  predicate HasVisible(s: string) {
    exists i :: 0 <= i < |s| && !IsWhitespace(s[i])
  }

  /** `s` has no whitespace at either end. */
  predicate IsTrimmed(s: string) {
    s == [] || (!IsWhitespace(s[0]) && !IsWhitespace(s[|s| - 1]))
  }

  /** Number of whitespace characters `trim` removes at the front. */
  function LeadingWhitespace(s: string): (k: nat)
    ensures k <= |s|
    ensures forall i :: 0 <= i < k ==> IsWhitespace(s[i])
    ensures k < |s| ==> !IsWhitespace(s[k])
  {
    if s != [] && IsWhitespace(s[0]) then 1 + LeadingWhitespace(s[1..]) else 0
  }

  /** Where the trailing whitespace run of `s` begins. */
  function TrailingStart(s: string): (e: nat)
    ensures e <= |s|
    ensures forall i :: e <= i < |s| ==> IsWhitespace(s[i])
    ensures e > 0 ==> !IsWhitespace(s[e - 1])
  {
    if s != [] && IsWhitespace(s[|s| - 1]) then TrailingStart(s[..|s| - 1]) else |s|
  }

  /** The leading whitespace run is the only whitespace prefix followed by a
      non-whitespace character or the end. */
  lemma LeadingUnique(s: string, k: nat)
    requires k <= |s| && forall i :: 0 <= i < k ==> IsWhitespace(s[i])
    requires k < |s| ==> !IsWhitespace(s[k])
    ensures LeadingWhitespace(s) == k
  {
  }

  /** Likewise for the trailing run. */
  lemma TrailingUnique(s: string, e: nat)
    requires e <= |s| && forall i :: e <= i < |s| ==> IsWhitespace(s[i])
    requires e > 0 ==> !IsWhitespace(s[e - 1])
    ensures TrailingStart(s) == e
  {
  }

  /** Removes the leading whitespace run. */
  function TrimStart(s: string): (r: string)
    ensures |r| <= |s| && r == s[|s| - |r|..]
    ensures r == [] || !IsWhitespace(r[0])
    ensures forall i :: 0 <= i < |s| - |r| ==> IsWhitespace(s[i])
  {
    s[LeadingWhitespace(s)..]
  }

  /** Where the block `trim` keeps ends. */
  function TrimEndIndex(s: string): (j: nat)
    ensures LeadingWhitespace(s) <= j <= |s|
  {
    LeadingWhitespace(s) + TrailingStart(s[LeadingWhitespace(s)..])
  }

  /** `String.prototype.trim`: the block of `s` that neither starts nor ends
      with whitespace, everything cut off on either side being whitespace. */
  function Trim(s: string): (r: string)
    ensures IsTrimmed(r)
    ensures r == s[LeadingWhitespace(s)..TrimEndIndex(s)]
    ensures forall i :: TrimEndIndex(s) <= i < |s| ==> IsWhitespace(s[i])
  {
    var k := LeadingWhitespace(s);
    var e := TrailingStart(s[k..]);
    TrimBlock(s, k, e);
    s[k..k + e]
  }

  /** The block `trim` keeps starts after the leading run and ends where the
      trailing run of the rest begins. */
  lemma TrimBlock(s: string, k: nat, e: nat)
    requires k == LeadingWhitespace(s) && e == TrailingStart(s[k..])
    ensures k + e <= |s| && IsTrimmed(s[k..k + e])
    ensures forall i :: k + e <= i < |s| ==> IsWhitespace(s[i])
  {
    BlockFacts(s, k, e);
  }

  lemma BlockFacts(s: string, k: nat, e: nat)
    requires k + e <= |s|
    requires k < |s| ==> !IsWhitespace(s[k])
    requires forall j :: e <= j < |s| - k ==> IsWhitespace(s[k..][j])
    requires e > 0 ==> !IsWhitespace(s[k..][e - 1])
    ensures IsTrimmed(s[k..k + e])
    ensures forall i :: k + e <= i < |s| ==> IsWhitespace(s[i])
  {
    if e > 0 {
      assert s[k..k + e][0] == s[k];
      assert s[k..k + e][e - 1] == s[k..][e - 1];
    }
    ShiftWhitespace(s, k, e);
  }

  /** Whitespace from index `e` of `s[k..]` on is whitespace from `k + e`
      of `s` on. */
  lemma ShiftWhitespace(s: string, k: nat, e: nat)
    requires k <= |s|
    requires forall j :: e <= j < |s| - k ==> IsWhitespace(s[k..][j])
    ensures forall i :: k + e <= i < |s| ==> IsWhitespace(s[i])
  {
    forall i | k + e <= i < |s|
      ensures IsWhitespace(s[i])
    {
      assert s[i] == s[k..][i - k];
    }
  }

  /** A string consisting of whitespace only trims to the empty string, and a
      string with a non-whitespace character does not. */
  lemma TrimEmptyIff(s: string)
    ensures Trim(s) == [] <==> forall i :: 0 <= i < |s| ==> IsWhitespace(s[i])
  {
    var r := Trim(s);
    if r != [] {
      var k := LeadingWhitespace(s);
      assert s[k] == r[0];
    }
  }

  lemma TrimStartOfTrimmed(s: string)
    requires s == [] || !IsWhitespace(s[0])
    ensures TrimStart(s) == s
  {
    LeadingUnique(s, 0);
  }

  lemma TrimOfTrimmed(s: string)
    requires IsTrimmed(s)
    ensures Trim(s) == s
  {
    LeadingUnique(s, 0);
    TrailingUnique(s, |s|);
  }

  /** Trimming twice is trimming once. */
  lemma TrimIdempotent(s: string)
    ensures Trim(Trim(s)) == Trim(s)
  {
    TrimOfTrimmed(Trim(s));
  }

  function LowerChar(c: char): (d: char)
    ensures 'A' <= c <= 'Z' ==> d as int == c as int + 32
    ensures !('A' <= c <= 'Z') ==> d == c
  {
    if 'A' <= c <= 'Z' then (c as int + 32) as char else c
  }

  function UpperChar(c: char): (d: char)
    ensures 'a' <= c <= 'z' ==> d as int == c as int - 32
    ensures !('a' <= c <= 'z') ==> d == c
  {
    if 'a' <= c <= 'z' then (c as int - 32) as char else c
  }

  /** `toLowerCase`, on ASCII letters only. */
  function ToLower(s: string): (r: string)
    ensures |r| == |s| && forall i :: 0 <= i < |s| ==> r[i] == LowerChar(s[i])
  {
    seq(|s|, i requires 0 <= i < |s| => LowerChar(s[i]))
  }

  /** `toUpperCase`, on ASCII letters only. */
  function ToUpper(s: string): (r: string)
    ensures |r| == |s| && forall i :: 0 <= i < |s| ==> r[i] == UpperChar(s[i])
  {
    seq(|s|, i requires 0 <= i < |s| => UpperChar(s[i]))
  }

  predicate HasNoAsciiLower(s: string) {
    forall i :: 0 <= i < |s| ==> !('a' <= s[i] <= 'z')
  }

  lemma ToUpperHasNoLower(s: string)
    ensures HasNoAsciiLower(ToUpper(s))
  {
  }

  /** Case mapping commutes with trimming: no whitespace is a letter. */
  lemma TrimOfLower(s: string)
    ensures Trim(ToLower(s)) == ToLower(Trim(s))
  {
    var k := LeadingWhitespace(s);
    var e := TrailingStart(s[k..]);
    TrimIs(s, k, e);
    TrimOfLowerIs(s, k, e);
    LowerSlice(s, k, k + e);
  }

  /** Lower-casing keeps the block `trim` keeps. */
  lemma TrimOfLowerIs(s: string, k: nat, e: nat)
    requires k == LeadingWhitespace(s) && e == TrailingStart(s[k..])
    ensures k + e <= |s| && Trim(ToLower(s)) == ToLower(s)[k..k + e]
  {
    LowerRuns(s, k);
    TrimIs(ToLower(s), k, e);
  }

  /** Lower-casing keeps the leading run, and the trailing run of the rest. */
  lemma LowerRuns(s: string, k: nat)
    requires k == LeadingWhitespace(s)
    ensures LeadingWhitespace(ToLower(s)) == k
    ensures TrailingStart(ToLower(s)[k..]) == TrailingStart(s[k..])
  {
    SameWhitespace(s);
    WhitespaceAgree(s, ToLower(s));
    LowerSlice(s, k, |s|);
    SameWhitespace(s[k..]);
    WhitespaceAgree(s[k..], ToLower(s[k..]));
  }

  lemma TrimIs(s: string, k: nat, e: nat)
    requires k == LeadingWhitespace(s) && e == TrailingStart(s[k..])
    ensures k + e <= |s| && Trim(s) == s[k..k + e]
  {
  }

  /** Strings with whitespace at the same places have the same leading and
      trailing runs. */
  lemma WhitespaceAgree(a: string, b: string)
    requires |a| == |b| && forall i :: 0 <= i < |a| ==> (IsWhitespace(a[i]) <==> IsWhitespace(b[i]))
    ensures LeadingWhitespace(a) == LeadingWhitespace(b) && TrailingStart(a) == TrailingStart(b)
  {
    LeadingUnique(b, LeadingWhitespace(a));
    TrailingUnique(b, TrailingStart(a));
  }

  /** `ToLower(s)` has whitespace exactly where `s` has. */
  lemma SameWhitespace(s: string)
    ensures forall i :: 0 <= i < |s| ==> (IsWhitespace(ToLower(s)[i]) <==> IsWhitespace(s[i]))
  {
    forall i | 0 <= i < |s|
      ensures IsWhitespace(ToLower(s)[i]) <==> IsWhitespace(s[i])
    {
      LowerKeepsWhitespace(s[i]);
    }
  }

  lemma LowerSlice(s: string, i: nat, j: nat)
    requires i <= j <= |s|
    ensures ToLower(s)[i..j] == ToLower(s[i..j])
  {
  }

  lemma LowerKeepsWhitespace(c: char)
    ensures IsWhitespace(LowerChar(c)) <==> IsWhitespace(c)
  {
  }

  /** If `s` is whitespace, then a trimmed block, then whitespace, trimming
      yields that block. */
  lemma TrimAt(s: string, k: nat, n: nat)
    requires k + n <= |s|
    requires forall i :: 0 <= i < k ==> IsWhitespace(s[i])
    requires forall i :: k + n <= i < |s| ==> IsWhitespace(s[i])
    requires IsTrimmed(s[k..k + n])
    ensures Trim(s) == s[k..k + n]
  {
    if n > 0 {
      assert s[k] == s[k..k + n][0];
      LeadingUnique(s, k);
      var t := s[k..];
      assert t[n - 1] == s[k..k + n][n - 1];
      TrailingUnique(t, n);
    } else {
      TrimEmptyIff(s);
    }
  }

  /** Index of the first whitespace character, or |s|. */
  function FirstWhitespace(s: string): (i: nat)
    ensures i <= |s| && NoWhitespace(s[..i])
    ensures i < |s| ==> IsWhitespace(s[i])
  {
    if s == [] then 0
    else if IsWhitespace(s[0]) then 0
    else
      var j := FirstWhitespace(s[1..]);
      assert s[..j + 1] == [s[0]] + s[1..][..j];
      j + 1
  }

  /** `s.split(/\s+/)`: the pieces between maximal whitespace runs.  A leading
      (trailing) run yields an empty first (last) piece; the empty string
      splits into a single empty piece. */
  function SplitWhitespace(s: string): (parts: seq<string>)
    ensures |parts| >= 1
    ensures forall p :: p in parts ==> NoWhitespace(p)
    decreases |s|
  {
    var i := FirstWhitespace(s);
    if i == |s| then [s]
    else
      var rest := TrimStart(s[i..]);
      [s[..i]] + SplitWhitespace(rest)
  }

  /** Splitting a trimmed, non-empty string never yields an empty piece. */
  lemma {:induction false} SplitTrimmedHasNoEmptyPiece(s: string)
    requires s != [] && IsTrimmed(s)
    ensures forall p :: p in SplitWhitespace(s) ==> p != []
    decreases |s|
  {
    var i := FirstWhitespace(s);
    if i < |s| {
      var rest := TrimStart(s[i..]);
      assert rest != [];
      assert s[|s| - |rest|..] == rest;
      assert IsTrimmed(rest);
      SplitTrimmedHasNoEmptyPiece(rest);
    }
  }

  /** The first piece of a split is the longest whitespace-free prefix. */
  lemma SplitFirstPiece(s: string)
    ensures SplitWhitespace(s)[0] == s[..FirstWhitespace(s)]
  {
  }

  /** A non-empty run made only of whitespace. */
  predicate IsWhitespaceRun(w: string) {
    w != [] && forall i :: 0 <= i < |w| ==> IsWhitespace(w[i])
  }

  /** `parts[0] + seps[0] + parts[1] + ... + parts[n-1]`: pieces glued by
      the separators between them. */
  function JoinRuns(parts: seq<string>, seps: seq<string>): (s: string)
    requires |parts| >= 1 && |seps| == |parts| - 1
    ensures |s| >= |parts[0]| && s[..|parts[0]|] == parts[0]
    decreases |parts|
  {
    if |parts| == 1 then parts[0]
    else parts[0] + seps[0] + JoinRuns(parts[1..], seps[1..])
  }

  /** The joined string ends with the last piece. */
  lemma {:induction false} JoinRunsEnds(parts: seq<string>, seps: seq<string>)
    requires |parts| >= 1 && |seps| == |parts| - 1
    ensures var s := JoinRuns(parts, seps); var last := parts[|parts| - 1];
      |s| >= |last| && s[|s| - |last|..] == last
    decreases |parts|
  {
    if |parts| > 1 {
      var rest := JoinRuns(parts[1..], seps[1..]);
      var s := parts[0] + seps[0] + rest;
      JoinRunsEnds(parts[1..], seps[1..]);
      assert s[|s| - |rest|..] == rest;
      assert s[|s| - |parts[|parts| - 1]|..] == rest[|rest| - |parts[|parts| - 1]|..];
    }
  }

  /** A string that starts with a whitespace run followed by a string not
      starting with whitespace loses exactly that run to `TrimStart`. */
  lemma TrimStartRun(w: string, rest: string)
    requires IsWhitespaceRun(w)
    requires rest == [] || !IsWhitespace(rest[0])
    ensures TrimStart(w + rest) == rest
  {
    LeadingUnique(w + rest, |w|);
    assert (w + rest)[|w|..] == rest;
  }

  /** `FirstWhitespace` is the only index with a whitespace-free prefix and
      whitespace (or the end) at it. */
  lemma FirstWhitespaceUnique(s: string, k: nat)
    requires k <= |s| && NoWhitespace(s[..k])
    requires k < |s| ==> IsWhitespace(s[k])
    ensures FirstWhitespace(s) == k
  {
    var i := FirstWhitespace(s);
    assert forall j :: 0 <= j < k ==> !IsWhitespace(s[j]) by {
      assert forall j :: 0 <= j < k ==> s[..k][j] == s[j];
    }
    assert forall j :: 0 <= j < i ==> !IsWhitespace(s[j]) by {
      assert forall j :: 0 <= j < i ==> s[..i][j] == s[j];
    }
  }

  /** One step of the split: a whitespace-free piece, a whitespace run and a
      rest that does not start with whitespace. */
  lemma SplitStep(p: string, w: string, rest: string)
    requires NoWhitespace(p) && IsWhitespaceRun(w)
    requires rest == [] || !IsWhitespace(rest[0])
    ensures SplitWhitespace(p + w + rest) == [p] + SplitWhitespace(rest)
  {
    var tail := w + rest;
    var s := p + tail;
    assert s == p + w + rest;
    assert s[|p|] == w[0];
    assert s[..|p|] == p && s[|p|..] == tail;
    FirstWhitespaceUnique(s, |p|);
    TrimStartRun(w, rest);
  }

  /** A join whose first piece is whitespace-free, and non-empty unless it is
      the only one, does not start with whitespace. */
  lemma JoinRunsStart(parts: seq<string>, seps: seq<string>)
    requires |parts| >= 1 && |seps| == |parts| - 1
    requires NoWhitespace(parts[0]) && (|parts| == 1 || parts[0] != [])
    ensures var s := JoinRuns(parts, seps); s == [] || !IsWhitespace(s[0])
  {
    var s := JoinRuns(parts, seps);
    if parts[0] != [] {
      assert s[0] == s[..|parts[0]|][0];
    }
  }

  /** Splitting undoes joining: whitespace-free pieces glued by whitespace
      runs of any length split back into exactly those pieces.  Only the
      first and the last piece may be empty; a leading (trailing) run then
      yields the empty first (last) piece. */
  lemma {:induction false} SplitJoinRuns(parts: seq<string>, seps: seq<string>)
    requires |parts| >= 1 && |seps| == |parts| - 1
    requires forall i :: 0 <= i < |parts| ==> NoWhitespace(parts[i])
    requires forall i :: 0 < i < |parts| - 1 ==> parts[i] != []
    requires forall i :: 0 <= i < |seps| ==> IsWhitespaceRun(seps[i])
    ensures SplitWhitespace(JoinRuns(parts, seps)) == parts
    decreases |parts|
  {
    if |parts| == 1 {
      assert FirstWhitespace(parts[0]) == |parts[0]|;
    } else {
      var tail := parts[1..];
      RunPiecesTail(parts, seps);
      JoinRunsStart(tail, seps[1..]);
      SplitStep(parts[0], seps[0], JoinRuns(tail, seps[1..]));
      SplitJoinRuns(tail, seps[1..]);
    }
  }

  /** The conditions of `SplitJoinRuns` carry over to the pieces after the
      first. */
  lemma RunPiecesTail(parts: seq<string>, seps: seq<string>)
    requires |parts| >= 2 && |seps| == |parts| - 1
    requires forall i :: 0 <= i < |parts| ==> NoWhitespace(parts[i])
    requires forall i :: 0 < i < |parts| - 1 ==> parts[i] != []
    requires forall i :: 0 <= i < |seps| ==> IsWhitespaceRun(seps[i])
    ensures var tail := parts[1..]; var more := seps[1..];
      && parts == [parts[0]] + tail && NoWhitespace(parts[0]) && IsWhitespaceRun(seps[0])
      && NoWhitespace(tail[0]) && (|tail| == 1 || tail[0] != [])
      && (forall i :: 0 <= i < |tail| ==> NoWhitespace(tail[i]))
      && (forall i :: 0 < i < |tail| - 1 ==> tail[i] != [])
      && (forall i :: 0 <= i < |more| ==> IsWhitespaceRun(more[i]))
  {
    var tail := parts[1..];
    assert forall i :: 0 <= i < |tail| ==> tail[i] == parts[i + 1];
  }

  function DigitChar(d: nat): (c: char)
    requires d < 10
    ensures '0' <= c <= '9'
  {
    ('0' as int + d) as char
  }

  function DigitValue(c: char): (d: nat)
    requires '0' <= c <= '9'
    ensures d < 10
  {
    c as int - '0' as int
  }

  predicate AllDigits(s: string) {
    forall i :: 0 <= i < |s| ==> '0' <= s[i] <= '9'
  }

  /** The decimal notation of a natural number, as `String(n)` writes it. */
  function NatToString(n: nat): (r: string)
    ensures r != [] && AllDigits(r)
  {
    if n < 10 then [DigitChar(n)] else NatToString(n / 10) + [DigitChar(n % 10)]
  }

  /** Reads a string of decimal digits. */
  function ParseDigits(s: string): nat
    requires AllDigits(s)
  {
    if s == [] then 0 else ParseDigits(s[..|s| - 1]) * 10 + DigitValue(s[|s| - 1])
  }

  /** Writing a number in decimal and reading it back gives the number. */
  lemma {:induction false} ParseNatToString(n: nat)
    ensures ParseDigits(NatToString(n)) == n
  {
    if n >= 10 {
      var s := NatToString(n);
      assert s[..|s| - 1] == NatToString(n / 10);
      ParseNatToString(n / 10);
    }
  }

  /** `String(i)` for an integer: an optional `-` and the decimal digits. */
  function IntToString(i: int): (r: string)
  {
    if i < 0 then "-" + NatToString(-i) else NatToString(i)
  }

  /** Distinct integers are written differently. */
  lemma IntToStringInjective(i: int, j: int)
    requires IntToString(i) == IntToString(j)
    ensures i == j
  {
    IntToStringSign(i);
    IntToStringSign(j);
    if i >= 0 && j >= 0 {
      NatToStringInjective(i, j);
    } else if i < 0 && j < 0 {
      assert NatToString(-i) == NatToString(-j) by {
        assert NatToString(-i) == IntToString(i)[1..];
        assert NatToString(-j) == IntToString(j)[1..];
      }
      NatToStringInjective(-i, -j);
    }
  }

  /** Distinct natural numbers are written differently. */
  lemma NatToStringInjective(m: nat, n: nat)
    requires NatToString(m) == NatToString(n)
    ensures m == n
  {
    ParseNatToString(m);
    ParseNatToString(n);
  }

  /** `String(i)` starts with a minus sign exactly for negative `i`. */
  lemma IntToStringSign(i: int)
    ensures IntToString(i) != [] && (IntToString(i)[0] == '-' <==> i < 0)
  {
  }

  /** `s.padStart(width, "0")` for a string `s`. */
  function PadZero(s: string, width: nat): (r: string)
    ensures |r| == if |s| < width then width else |s|
    ensures r[|r| - |s|..] == s
    ensures forall i :: 0 <= i < |r| - |s| ==> r[i] == '0'
    ensures AllDigits(s) ==> AllDigits(r)
  {
    if |s| < width then seq(width - |s|, _ => '0') + s else s
  }

  predicate StartsWith(s: string, prefix: string) {
    |prefix| <= |s| && s[..|prefix|] == prefix
  }

  /** Index of the first occurrence of `c` in `s`, or |s|. */
  function IndexOf(s: string, c: char): (k: nat)
    ensures k <= |s| && c !in s[..k]
    ensures k < |s| ==> s[k] == c
    ensures k == |s| <==> c !in s
  {
    if s == [] then 0
    else if s[0] == c then 0
    else
      var j := IndexOf(s[1..], c);
      assert s[..j + 1] == [s[0]] + s[1..][..j];
      j + 1
  }

  /** `s.replace(c, "")` with a one-character string pattern: removes the first
      occurrence of `c` only. */
  function RemoveFirst(s: string, c: char): (r: string)
    ensures c !in s ==> r == s
    ensures c in s ==> |r| == |s| - 1 && r[..IndexOf(s, c)] == s[..IndexOf(s, c)]
    ensures c in s ==> r[IndexOf(s, c)..] == s[IndexOf(s, c) + 1..]
  {
    var k := IndexOf(s, c);
    if k == |s| then s else s[..k] + s[k + 1..]
  }

  predicate IsHexDigit(c: char) {
    ('0' <= c <= '9') || ('a' <= c <= 'f') || ('A' <= c <= 'F')
  }

  function HexDigitValue(c: char): (d: nat)
    requires IsHexDigit(c)
    ensures d < 16
  {
    if '0' <= c <= '9' then c as int - '0' as int
    else if 'a' <= c <= 'f' then c as int - 'a' as int + 10
    else c as int - 'A' as int + 10
  }

  /** Upper-case hexadecimal digit of `d`. */
  function HexDigitChar(d: nat): (c: char)
    requires d < 16
    ensures IsHexDigit(c) && HexDigitValue(c) == d
    ensures !('a' <= c <= 'z')
  {
    if d < 10 then ('0' as int + d) as char else ('A' as int + d - 10) as char
  }

  /** `s.split(sep)` on a single character. */
  function SplitOn(s: string, sep: char): (parts: seq<string>)
    ensures |parts| >= 1
    decreases |s|
  {
    var k := IndexOf(s, sep);
    if k == |s| then [s] else [s[..k]] + SplitOn(s[k + 1..], sep)
  }

  /** When `sep` occurs, the second piece is what lies between its first
      occurrence and the next one (or the end). */
  lemma SplitOnSecond(s: string, sep: char)
    requires sep in s
    ensures var rest := s[IndexOf(s, sep) + 1..];
      |SplitOn(s, sep)| >= 2 && SplitOn(s, sep)[1] == rest[..IndexOf(rest, sep)]
  {
    var rest := s[IndexOf(s, sep) + 1..];
    assert SplitOn(s, sep) == [s[..IndexOf(s, sep)]] + SplitOn(rest, sep);
    if sep !in rest {
      SplitOnFree(rest, sep);
    }
  }

  lemma SplitOnFree(s: string, sep: char)
    requires sep !in s
    ensures SplitOn(s, sep) == [s]
  {
  }

  lemma SplitOnJoined(a: string, sep: char, b: string)
    requires sep !in a
    ensures SplitOn(a + [sep] + b, sep) == [a] + SplitOn(b, sep)
  {
    var s := a + [sep] + b;
    IndexOfAfter(a, sep, b);
    assert s[..|a|] == a;
    assert s[|a| + 1..] == b;
  }

  lemma IndexOfAfter(a: string, sep: char, b: string)
    requires sep !in a
    ensures IndexOf(a + [sep] + b, sep) == |a|
  {
    var s := a + [sep] + b;
    assert s[|a|] == sep;
    assert s[..|a|] == a;
  }

  /** `parts.join(sep)`. */
  function Join(parts: seq<string>, sep: char): string {
    if parts == [] then ""
    else if |parts| == 1 then parts[0]
    else parts[0] + [sep] + Join(parts[1..], sep)
  }

  /** Splitting a join of separator-free parts gives the parts back. */
  lemma {:induction false} SplitJoin(parts: seq<string>, sep: char)
    requires |parts| >= 1 && forall i :: 0 <= i < |parts| ==> sep !in parts[i]
    ensures SplitOn(Join(parts, sep), sep) == parts
  {
    if |parts| == 1 {
      SplitOnFree(parts[0], sep);
    } else {
      SplitJoin(parts[1..], sep);
      SplitOnJoined(parts[0], sep, Join(parts[1..], sep));
    }
  }
}
