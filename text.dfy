/**
 * Text helpers the core relies on: Rust's `Display` for integers, `str::trim`
 * (Unicode White_Space on both ends), ASCII lower-casing and `str::parse::<u32>`.
 */
module Text {
  import opened Wrappers

  type u32 = x: int | 0 <= x <= 0xffff_ffff

  predicate IsDigit(c: char) { '0' <= c <= '9' }

  predicate AllDigits(s: string) { forall i :: 0 <= i < |s| ==> IsDigit(s[i]) }

  function DigitChar(d: nat): (c: char)
    requires d < 10
    ensures IsDigit(c)
  {
    ('0' as int + d) as char
  }

  function DigitValue(c: char): (d: nat)
    requires IsDigit(c)
    ensures d < 10 && DigitChar(d) == c
  {
    c as int - '0' as int
  }

  /** Decimal rendering of a natural number, as Rust's `{}` prints an unsigned integer. */
  function NatToString(n: nat): (s: string)
    ensures |s| >= 1 && AllDigits(s)
    ensures s[0] == '0' ==> n == 0
  {
    if n < 10 then [DigitChar(n)] else NatToString(n / 10) + [DigitChar(n % 10)]
  }

  /** Decimal rendering of a signed integer, as Rust's `{}` prints an `i32`. */
  function IntToString(i: int): (s: string)
    ensures |s| >= 1
    ensures s[0] == '-' <==> i < 0
  {
    if i < 0 then "-" + NatToString(-i) else NatToString(i)
  }

  /** The value of a string of decimal digits (leading zeros allowed). */
  function DigitsValue(s: string): nat
    requires AllDigits(s)
  {
    if s == [] then 0 else DigitsValue(s[..|s| - 1]) * 10 + DigitValue(s[|s| - 1])
  }

  lemma {:induction false} DigitsValueOfNatToString(n: nat)
    ensures DigitsValue(NatToString(n)) == n
  {
    if n >= 10 {
      var s := NatToString(n);
      assert s[..|s| - 1] == NatToString(n / 10);
      DigitsValueOfNatToString(n / 10);
    }
  }

  lemma NatToStringInjective(a: nat, b: nat)
    ensures NatToString(a) == NatToString(b) ==> a == b
  {
    DigitsValueOfNatToString(a);
    DigitsValueOfNatToString(b);
  }

  /** Distinct integers print differently, so names built from an item id keep ids apart. */
  lemma IntToStringInjective(a: int, b: int)
    ensures IntToString(a) == IntToString(b) ==> a == b
  {
    if IntToString(a) == IntToString(b) {
      if a < 0 && b < 0 {
        assert NatToString(-a) == IntToString(a)[1..];
        assert NatToString(-b) == IntToString(b)[1..];
        NatToStringInjective(-a, -b);
      } else if a >= 0 && b >= 0 {
        NatToStringInjective(a, b);
      }
    }
  }

  /** Rust's `char::is_whitespace`: the Unicode White_Space property. */
  predicate IsWhitespace(c: char) {
    || ('\t' <= c <= '\r')
    || c == ' '
    || c == '\U{85}'
    || c == '\U{A0}'
    || c == '\U{1680}'
    || ('\U{2000}' <= c <= '\U{200A}')
    || c == '\U{2028}'
    || c == '\U{2029}'
    || c == '\U{202F}'
    || c == '\U{205F}'
    || c == '\U{3000}'
  }

  predicate AllWhitespace(s: string) { forall i :: 0 <= i < |s| ==> IsWhitespace(s[i]) }

  function TrimStart(s: string): (t: string)
    ensures t == [] || !IsWhitespace(t[0])
    ensures |t| <= |s| && t == s[|s| - |t|..]
  {
    if s != [] && IsWhitespace(s[0]) then TrimStart(s[1..]) else s
  }

  function TrimEnd(s: string): (t: string)
    ensures t == [] || !IsWhitespace(t[|t| - 1])
    ensures |t| <= |s| && t == s[..|t|]
  {
    if s != [] && IsWhitespace(s[|s| - 1]) then TrimEnd(s[..|s| - 1]) else s
  }

  /** Rust's `str::trim`. */
  function Trim(s: string): string {
    TrimEnd(TrimStart(s))
  }

  lemma {:induction false} TrimStartSkipsWhitespace(w: string, t: string)
    requires AllWhitespace(w)
    requires t == [] || !IsWhitespace(t[0])
    ensures TrimStart(w + t) == t
  {
    if w != [] {
      assert (w + t)[1..] == w[1..] + t;
      TrimStartSkipsWhitespace(w[1..], t);
    } else {
      assert w + t == t;
    }
  }

  lemma {:induction false} TrimEndSkipsWhitespace(t: string, w: string)
    requires AllWhitespace(w)
    requires t == [] || !IsWhitespace(t[|t| - 1])
    ensures TrimEnd(t + w) == t
  {
    if w != [] {
      assert (t + w)[..|t + w| - 1] == t + w[..|w| - 1];
      TrimEndSkipsWhitespace(t, w[..|w| - 1]);
    } else {
      assert t + w == t;
    }
  }

  /** Surrounding whitespace is all that `Trim` removes from a word that starts and ends visibly. */
  lemma TrimSurrounded(w1: string, t: string, w2: string)
    requires AllWhitespace(w1) && AllWhitespace(w2)
    requires t != [] && !IsWhitespace(t[0]) && !IsWhitespace(t[|t| - 1])
    ensures Trim(w1 + t + w2) == t
  {
    assert w1 + t + w2 == w1 + (t + w2);
    TrimStartSkipsWhitespace(w1, t + w2);
    TrimEndSkipsWhitespace(t, w2);
  }

  function AsciiLowerChar(c: char): char {
    if 'A' <= c <= 'Z' then (c as int - 'A' as int + 'a' as int) as char else c
  }

  /**
   * Lower-casing of ASCII letters; every other character is kept. Rust's
   * `to_lowercase` also folds non-ASCII letters, and a few of them yield ASCII
   * letters (KELVIN SIGN gives 'k'; LATIN CAPITAL LETTER I WITH DOT ABOVE gives
   * 'i' followed by a combining dot), but none yields 't', 'r', 'u' or 'e'.
   */
  function AsciiLower(s: string): (t: string)
    ensures |t| == |s|
    ensures forall i :: 0 <= i < |s| ==> t[i] == AsciiLowerChar(s[i])
  {
    if s == [] then [] else [AsciiLowerChar(s[0])] + AsciiLower(s[1..])
  }

  const U32Max: nat := 0xffff_ffff

  /** The digits `parse::<u32>` reads: one leading '+' is accepted and skipped. */
  function UnsignedDigits(s: string): string {
    if |s| > 0 && s[0] == '+' then s[1..] else s
  }

  /**
   * Rust's `str::parse::<u32>`: an optional '+', then at least one ASCII digit,
   * and a value that fits in 32 bits; anything else is an error.
   */
  function ParseU32(s: string): (r: Option<u32>)
    ensures r.Some? ==> s != [] && s[0] != '-' && !IsWhitespace(s[0])
    ensures r.Some? <==> UnsignedDigits(s) != [] && AllDigits(UnsignedDigits(s)) && DigitsValue(UnsignedDigits(s)) <= U32Max
    ensures r.Some? ==> r.value == DigitsValue(UnsignedDigits(s))
  {
    var d := UnsignedDigits(s);
    if d != [] && AllDigits(d) && DigitsValue(d) <= U32Max then Some(DigitsValue(d)) else None
  }

  /** Text holding a character that is neither a digit nor a leading '+' does not parse. */
  lemma ParseU32OfNonNumber(s: string, i: nat)
    requires i < |s| && !IsDigit(s[i]) && !(i == 0 && s[0] == '+')
    ensures ParseU32(s) == None
  {
  }

  /** A run of zeros is a digit string of value 0. */
  lemma {:induction false} ZerosValue(zeros: string)
    requires forall i :: 0 <= i < |zeros| ==> zeros[i] == '0'
    ensures AllDigits(zeros) && DigitsValue(zeros) == 0
  {
    if zeros != [] {
      ZerosValue(zeros[..|zeros| - 1]);
    }
  }

  /** Leading zeros do not change the value of a digit string. */
  lemma {:induction false} DigitsValueLeadingZeros(zeros: string, digits: string)
    requires forall i :: 0 <= i < |zeros| ==> zeros[i] == '0'
    requires AllDigits(digits)
    ensures AllDigits(zeros + digits) && DigitsValue(zeros + digits) == DigitsValue(digits)
  {
    var all := zeros + digits;
    ZerosValue(zeros);
    assert AllDigits(all) by {
      forall i | 0 <= i < |all| ensures IsDigit(all[i]) {
        if i < |zeros| {
          assert all[i] == zeros[i];
        } else {
          assert all[i] == digits[i - |zeros|];
        }
      }
    }
    if digits == [] {
      assert all == zeros;
    } else {
      var init := digits[..|digits| - 1];
      assert all[..|all| - 1] == zeros + init;
      DigitsValueLeadingZeros(zeros, init);
    }
  }

  /** A `u32` printed with leading zeros parses to the same number. */
  lemma ParseU32OfPaddedNatToString(zeros: string, n: u32)
    requires forall i :: 0 <= i < |zeros| ==> zeros[i] == '0'
    ensures ParseU32(zeros + NatToString(n)) == Some(n)
  {
    DigitsValueLeadingZeros(zeros, NatToString(n));
    DigitsValueOfNatToString(n);
  }

  /** A printed number wider than 32 bits does not parse as a `u32`. */
  lemma ParseU32OfWideNatToString(n: nat)
    requires n > U32Max
    ensures ParseU32(NatToString(n)) == None
  {
    DigitsValueOfNatToString(n);
  }

  /** Printing a `u32` and parsing it back gives the same number. */
  lemma ParseU32OfNatToString(n: u32)
    ensures ParseU32(NatToString(n)) == Some(n)
    ensures ParseU32("+" + NatToString(n)) == Some(n)
  {
    DigitsValueOfNatToString(n);
    assert ("+" + NatToString(n))[1..] == NatToString(n);
  }
}
