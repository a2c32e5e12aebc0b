/**
 * The few pieces of the JavaScript runtime the components rely on:
 * the white-space class shared by `String.prototype.trim` and the regular
 * expression escape `\s`, `trim` itself with the "blank" test `!s.trim()`,
 * the decimal rendering of a non-negative integer in a template literal,
 * and the string conversion of a possibly `undefined` value.
 */
module Js {
  import opened Wrappers

  /**
   * The characters `\s` matches and `trim` removes: white space and line
   * terminators. All of them lie in the Basic Multilingual Plane, so a
   * surrogate code unit is never white space.
   */
  predicate IsSpace(c: char)
    ensures IsSpace(c) ==> c as int < 0x1_0000
    ensures c == ' ' || c == '\t' || c == '\n' || c == '\r' ==> IsSpace(c)
  {
    if c <= ' ' then c == ' ' || '\t' <= c <= '\r'
    else if c < '\U{A0}' then false
    else
      || c == '\U{A0}' || c == '\U{1680}' || '\U{2000}' <= c <= '\U{200A}'
      || c == '\U{2028}' || c == '\U{2029}' || c == '\U{202F}' || c == '\U{205F}'
      || c == '\U{3000}' || c == '\U{FEFF}'
  }

  /** Every character of `s` is white space (vacuously so for ""). */
  ghost predicate AllSpace(s: string)
  {
    forall i :: 0 <= i < |s| ==> IsSpace(s[i])
  }

  /** Skips white space from position `k` on: the index of the first non-space character at or after `k`, or `|s|`. */
  function SkipSpace(s: string, k: nat): (a: nat)
    requires k <= |s|
    ensures k <= a <= |s|
    ensures forall i :: k <= i < a ==> IsSpace(s[i])
    ensures a < |s| ==> !IsSpace(s[a])
    decreases |s| - k
  {
    if k < |s| && IsSpace(s[k]) then SkipSpace(s, k + 1) else k
  }

  /** Skips white space backwards from position `k`, but not below `lo`: the end of the last non-space character before `k`. */
  function SkipSpaceBack(s: string, lo: nat, k: nat): (b: nat)
    requires lo <= k <= |s|
    ensures lo <= b <= k
    ensures forall i :: b <= i < k ==> IsSpace(s[i])
    ensures b > lo ==> !IsSpace(s[b - 1])
  {
    if k > lo && IsSpace(s[k - 1]) then SkipSpaceBack(s, lo, k - 1) else k
  }

  /** `s.trim()`: the part of `s` left when the white space at both ends is cut away. */
  function Trim(s: string): (r: string)
    ensures exists a :: 0 <= a <= a + |r| <= |s| && r == s[a..a + |r|]
                        && AllSpace(s[..a]) && AllSpace(s[a + |r|..])
    ensures r != [] ==> !IsSpace(r[0]) && !IsSpace(r[|r| - 1])
    ensures r == [] <==> AllSpace(s)
  {
    TrimShape(s);
    var a := SkipSpace(s, 0);
    var r := s[a..SkipSpaceBack(s, a, |s|)];
    assert r == s[a..a + |r|];
    r
  }

  /** The cut `Trim` makes: white space before `a` and from `b` on, nothing else. */
  lemma TrimShape(s: string)
    ensures var a := SkipSpace(s, 0); var b := SkipSpaceBack(s, a, |s|);
            && AllSpace(s[..a]) && AllSpace(s[b..])
            && (a == b <==> AllSpace(s))
  {
    var a := SkipSpace(s, 0);
    var b := SkipSpaceBack(s, a, |s|);
    assert AllSpace(s[..a]);
    assert AllSpace(s[b..]);
    if a == b {
      assert a == |s|;
    } else if a < |s| {
      assert !IsSpace(s[a]);
    }
  }

  /** JavaScript's `!s.trim()`: the trimmed string is empty, hence falsy. */
  predicate IsBlank(s: string)
    ensures IsBlank(s) <==> AllSpace(s)
  {
    Trim(s) == []
  }

  /** The ASCII digit for `d`. */
  function DigitChar(d: nat): (c: char)
    requires d < 10
    ensures '0' <= c <= '9'
    ensures c as int - '0' as int == d
  {
    ('0' as int + d) as char
  }

  predicate AllDigits(s: string)
  {
    forall i :: 0 <= i < |s| ==> '0' <= s[i] <= '9'
  }

  /** The template literal `${n}` for a non-negative integer `n`: its shortest decimal numeral. */
  function Decimal(n: nat): (r: string)
    ensures |r| >= 1 && AllDigits(r)
    ensures r[0] == '0' ==> n == 0 && r == "0"
  {
    if n < 10 then [DigitChar(n)] else Decimal(n / 10) + [DigitChar(n % 10)]
  }

  /** The value a string of decimal digits denotes: the reference reading of a numeral. */
  function ParseDecimal(s: string): nat
    requires AllDigits(s)
  {
    if s == [] then 0
    else ParseDecimal(s[..|s| - 1]) * 10 + (s[|s| - 1] as int - '0' as int)
  }

  /** Reading back the numeral `Decimal` writes gives the number again. */
  lemma {:induction false} ParseDecimalOfDecimal(n: nat)
    ensures ParseDecimal(Decimal(n)) == n
  {
    var r := Decimal(n);
    if n >= 10 {
      assert r[..|r| - 1] == Decimal(n / 10);
      ParseDecimalOfDecimal(n / 10);
    }
  }

  /** So the numeral determines the number: distinct status codes give distinct messages. */
  lemma DecimalInjective(m: nat, n: nat)
    ensures Decimal(m) == Decimal(n) ==> m == n
  {
    ParseDecimalOfDecimal(m);
    ParseDecimalOfDecimal(n);
  }

  /** String conversion of a possibly `undefined` value, as `+` and template literals do it. */
  function Stringify(v: Option<string>): (r: string)
    ensures v.Some? ==> r == v.value
    ensures v.None? ==> r == "undefined"
  {
    match v
    case Some(s) => s
    case None => "undefined"
  }

  // ---------------------------------------------------------------------
  // UTF-16: a JavaScript string is a sequence of 16-bit code units, and
  // `length` and indexing count those units, not characters
  // ---------------------------------------------------------------------

  newtype CodeUnit = x: int | 0 <= x < 0x1_0000

  predicate IsHighSurrogate(u: CodeUnit)
  {
    0xD800 <= u <= 0xDBFF
  }

  predicate IsLowSurrogate(u: CodeUnit)
  {
    0xDC00 <= u <= 0xDFFF
  }

  /** The code units of one character: itself when it lies in the Basic Multilingual Plane, a surrogate pair otherwise. */
  function Utf16Char(c: char): (u: seq<CodeUnit>)
    ensures |u| == (if c as int < 0x1_0000 then 1 else 2)
    ensures |u| == 1 ==> u[0] as int == c as int && !IsHighSurrogate(u[0]) && !IsLowSurrogate(u[0])
    ensures |u| == 2 ==> IsHighSurrogate(u[0]) && IsLowSurrogate(u[1])
  {
    if c as int < 0x1_0000 then [c as int as CodeUnit]
    else
      var v := c as int - 0x1_0000;
      [(0xD800 + v / 0x400) as CodeUnit, (0xDC00 + v % 0x400) as CodeUnit]
  }

  /** The string as JavaScript stores it: the code units of its characters, in order. */
  function Utf16(s: string): (u: seq<CodeUnit>)
    ensures |u| >= |s|
    ensures s == [] <==> u == []
  {
    if s == [] then [] else Utf16Char(s[0]) + Utf16(s[1..])
  }

  /** The character a surrogate pair stands for. */
  function FromPair(hi: CodeUnit, lo: CodeUnit): (c: char)
    requires IsHighSurrogate(hi) && IsLowSurrogate(lo)
    ensures c as int >= 0x1_0000
  {
    (0x1_0000 + (hi as int - 0xD800) * 0x400 + (lo as int - 0xDC00)) as char
  }

  /** The reference reading of code units as characters: `None` for a surrogate that is not part of a pair. */
  function FromUtf16(u: seq<CodeUnit>): Option<string>
  {
    if u == [] then Some([])
    else if IsHighSurrogate(u[0]) then
      if |u| >= 2 && IsLowSurrogate(u[1]) then
        match FromUtf16(u[2..])
        case Some(rest) => Some([FromPair(u[0], u[1])] + rest)
        case None => None
      else None
    else if IsLowSurrogate(u[0]) then None
    else
      match FromUtf16(u[1..])
      case Some(rest) => Some([u[0] as int as char] + rest)
      case None => None
  }

  /** Reading back the code units of one character, followed by any other units, gives the character first. */
  lemma Utf16CharRoundTrip(c: char, rest: seq<CodeUnit>)
    ensures FromUtf16(Utf16Char(c) + rest) ==
              match FromUtf16(rest)
              case Some(r) => Some([c] + r)
              case None => None
  {
    var u := Utf16Char(c) + rest;
    if c as int < 0x1_0000 {
      assert u[1..] == rest;
      assert u[0] as int as char == c;
    } else {
      var v := c as int - 0x1_0000;
      assert u[2..] == rest;
      assert (v / 0x400) * 0x400 + v % 0x400 == v;
      assert FromPair(u[0], u[1]) as int == c as int;
    }
  }

  /** Encoding is undone by the reference reading, so no two strings share their code units. */
  lemma {:induction false} Utf16RoundTrip(s: string)
    ensures FromUtf16(Utf16(s)) == Some(s)
  {
    if s != [] {
      Utf16RoundTrip(s[1..]);
      Utf16CharRoundTrip(s[0], Utf16(s[1..]));
      assert [s[0]] + s[1..] == s;
    }
  }

  /** A string that stays within the Basic Multilingual Plane has one code unit per character, equal to it. */
  lemma {:induction false} Utf16OfBmp(s: string)
    requires forall i :: 0 <= i < |s| ==> s[i] as int < 0x1_0000
    ensures |Utf16(s)| == |s|
    ensures forall i :: 0 <= i < |s| ==> Utf16(s)[i] as int == s[i] as int
  {
    if s != [] {
      Utf16OfBmp(s[1..]);
      var u := Utf16(s);
      assert u == Utf16Char(s[0]) + Utf16(s[1..]);
      forall i | 0 < i < |s| ensures u[i] as int == s[i] as int {
        assert u[i] == Utf16(s[1..])[i - 1];
        assert s[1..][i - 1] == s[i];
      }
    }
  }

  /**
   * Each character of `s` taken as one code unit (a character beyond the
   * Basic Multilingual Plane becomes U+FFFD): the stored form of a string that
   * stays within that plane.
   */
  function BmpUnits(s: string): seq<CodeUnit>
  {
    seq(|s|, i requires 0 <= i < |s| => if s[i] as int < 0x1_0000 then s[i] as int as CodeUnit else 0xFFFD)
  }

  /** For a string within the Basic Multilingual Plane those are exactly its UTF-16 code units. */
  lemma BmpUnitsAreUtf16(s: string)
    requires forall i :: 0 <= i < |s| ==> s[i] as int < 0x1_0000
    ensures BmpUnits(s) == Utf16(s)
  {
    Utf16OfBmp(s);
    var b, u := BmpUnits(s), Utf16(s);
    forall i | 0 <= i < |s| ensures b[i] == u[i] {
      assert b[i] as int == s[i] as int;
    }
  }
}
