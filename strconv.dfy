/**
 * The part of Go's strconv package the accessors call: ParseBool, ParseInt and ParseUint,
 * with FormatBool, FormatInt and FormatUint as the canonical texts they read back.
 */
module Strconv {
  import opened Wrappers

  /** strconv.IntSize: the width of Go's plain int and uint on the 64-bit targets this model assumes. */
  const IntSize: nat := 64

  /** The bitSize arguments the accessors pass to ParseInt and ParseUint; 0 stands for IntSize. */
  type BitSize = b: int | b == 0 || b == 8 || b == 16 || b == 32 || b == 64

  /** The number of bits a bitSize argument selects. */
  function Bits(bitSize: BitSize): (n: nat)
    ensures n == 8 || n == 16 || n == 32 || n == 64
  {
    if bitSize == 0 then IntSize else bitSize
  }

  /** The largest unsigned value of the width: 2^bits - 1. */
  function MaxUint(bitSize: BitSize): nat
  {
    var n := Bits(bitSize);
    if n == 8 then 0xFF
    else if n == 16 then 0xFFFF
    else if n == 32 then 0xFFFF_FFFF
    else 0xFFFF_FFFF_FFFF_FFFF
  }

  /** The largest signed value of the width: 2^(bits-1) - 1. */
  function MaxInt(bitSize: BitSize): nat
  {
    var n := Bits(bitSize);
    if n == 8 then 0x7F
    else if n == 16 then 0x7FFF
    else if n == 32 then 0x7FFF_FFFF
    else 0x7FFF_FFFF_FFFF_FFFF
  }

  /** The smallest signed value of the width: -2^(bits-1). */
  function MinInt(bitSize: BitSize): int
  {
    -(MaxInt(bitSize) as int) - 1
  }

  // ---------------------------------------------------------------- booleans

  /** The texts ParseBool reads as true. */
  const TrueTokens: set<string> := {"1", "t", "T", "TRUE", "true", "True"}

  /** The texts ParseBool reads as false. */
  const FalseTokens: set<string> := {"0", "f", "F", "FALSE", "false", "False"}

  /** strconv.ParseBool: one of the accepted spellings of true or false, anything else an error. */
  function ParseBool(s: string): (r: Option<bool>)
    ensures r == Some(true) <==> s in TrueTokens
    ensures r == Some(false) <==> s in FalseTokens
    ensures r == None <==> s !in TrueTokens + FalseTokens
  {
    if s == "1" || s == "t" || s == "T" || s == "TRUE" || s == "true" || s == "True" then Some(true)
    else if s == "0" || s == "f" || s == "F" || s == "FALSE" || s == "false" || s == "False" then Some(false)
    else None
  }

  /** strconv.FormatBool: the canonical text of b. */
  function FormatBool(b: bool): string
  {
    if b then "true" else "false"
  }

  /** ParseBool reads FormatBool's text back. */
  lemma ParseFormatBool(b: bool)
    ensures ParseBool(FormatBool(b)) == Some(b)
  {
  }

  // ---------------------------------------------------------------- digits

  /** The value of c as a digit: '0'-'9' are 0-9 and letters of either case are 10-35. */
  function DigitValue(c: char): (d: Option<nat>)
    ensures d.Some? ==> d.value < 36
  {
    if '0' <= c <= '9' then Some(c as int - '0' as int)
    else if 'a' <= c <= 'z' then Some(c as int - 'a' as int + 10)
    else if 'A' <= c <= 'Z' then Some(c as int - 'A' as int + 10)
    else None
  }

  /** Whether c is a digit below base. */
  predicate IsDigitIn(c: char, base: nat)
  {
    DigitValue(c).Some? && DigitValue(c).value < base
  }

  /**
   * The value of s read as digits in base, most significant first, or None when a character
   * is not a digit below base. The empty text reads as 0.
   */
  function DigitsValue(s: string, base: nat): (r: Option<nat>)
    ensures r.Some? <==> forall k :: 0 <= k < |s| ==> IsDigitIn(s[k], base)
  {
    if s == [] then Some(0)
    else
      var front := DigitsValue(s[..|s| - 1], base);
      assert forall k :: 0 <= k < |s| - 1 ==> s[..|s| - 1][k] == s[k];
      if front.Some? && IsDigitIn(s[|s| - 1], base) then
        Some(front.value * base + DigitValue(s[|s| - 1]).value)
      else None
  }

  /** The letter c in lower case; other characters unchanged. Used only to compare with 'b', 'o' and 'x'. */
  function Lower(c: char): char
  {
    if 'A' <= c <= 'Z' then (c as int - 'A' as int + 'a' as int) as char else c
  }

  /**
   * For base 0, the base the text's prefix selects and the digits after the prefix:
   * "0b" binary, "0o" octal, "0x" hexadecimal (either case, only with a digit after
   * them), another leading "0" octal, and decimal otherwise.
   */
  function InferBase(s: string): (r: (nat, string))
    ensures r.0 in {2, 8, 10, 16}
  {
    if |s| >= 1 && s[0] == '0' then
      if |s| >= 3 && Lower(s[1]) == 'b' then (2, s[2..])
      else if |s| >= 3 && Lower(s[1]) == 'o' then (8, s[2..])
      else if |s| >= 3 && Lower(s[1]) == 'x' then (16, s[2..])
      else (8, s[1..])
    else (10, s)
  }

  /**
   * The unsigned number s writes in base, before any range check: an empty text or a base
   * outside 0 and 2..36 is an error; base 0 takes the base from the prefix.
   */
  function Magnitude(s: string, base: int): Option<nat>
  {
    if s == [] then None
    else if base == 0 then DigitsValue(InferBase(s).1, InferBase(s).0)
    else if 2 <= base <= 36 then DigitsValue(s, base)
    else None
  }

  /**
   * strconv.ParseUint: the unsigned number s writes in base, an error when it does not fit the
   * width. With an explicit base the text must be a non-empty run of digits below the base; an
   * empty text or a base outside 0 and 2..36 is always an error.
   */
  function ParseUint(s: string, base: int, bitSize: BitSize): (r: Option<nat>)
    ensures r.Some? ==> r.value <= MaxUint(bitSize)
    ensures s == [] || (base != 0 && !(2 <= base <= 36)) ==> r.None?
    ensures 2 <= base <= 36 ==>
      (r.Some? <==> s != [] && (forall k :: 0 <= k < |s| ==> IsDigitIn(s[k], base))
                    && DigitsValue(s, base).value <= MaxUint(bitSize))
  {
    match Magnitude(s, base)
    case None => None
    case Some(n) => if n <= MaxUint(bitSize) then Some(n) else None
  }

  /**
   * strconv.ParseInt: an optional '+' or '-' and then an unsigned number in base, an error
   * when the signed value does not fit the width.
   */
  function ParseInt(s: string, base: int, bitSize: BitSize): (r: Option<int>)
    ensures r.Some? ==> MinInt(bitSize) <= r.value <= MaxInt(bitSize)
    ensures s == [] || (base != 0 && !(2 <= base <= 36)) ==> r.None?
  {
    if s == [] then None
    else
      var neg := s[0] == '-';
      var digits := if s[0] == '+' || s[0] == '-' then s[1..] else s;
      match Magnitude(digits, base)
      case None => None
      case Some(u) =>
        var n: int := if neg then -(u as int) else u;
        if MinInt(bitSize) <= n <= MaxInt(bitSize) then Some(n) else None
  }

  // ---------------------------------------------------------------- canonical texts

  /** The lower-case digit character for d. */
  function DigitChar(d: nat): (c: char)
    requires d < 36
    ensures DigitValue(c) == Some(d)
  {
    if d < 10 then ('0' as int + d) as char else ('a' as int + d - 10) as char
  }

  /** strconv.FormatUint: n in base, lower-case digits, no leading zeros. */
  function FormatUint(n: nat, base: nat): (s: string)
    requires 2 <= base <= 36
    decreases n
  {
    if n < base then [DigitChar(n)]
    else
      DivMod(n, base);
      FormatUint(n / base, base) + [DigitChar(n % base)]
  }

  /** strconv.FormatInt: FormatUint of the magnitude, with '-' before a negative number. */
  function FormatInt(i: int, base: nat): string
    requires 2 <= base <= 36
  {
    if i < 0 then "-" + FormatUint(-i, base) else FormatUint(i, base)
  }

  /** The digits of FormatUint read back as n, and the text is never empty. */
  lemma {:induction false} DigitsValueOfFormat(n: nat, base: nat)
    requires 2 <= base <= 36
    ensures |FormatUint(n, base)| >= 1
    ensures DigitsValue(FormatUint(n, base), base) == Some(n)
    decreases n
  {
    var s := FormatUint(n, base);
    if n < base {
      assert s == [DigitChar(n)];
      assert s[..0] == [];
      assert DigitsValue([], base) == Some(0);
    } else {
      var q, r := n / base, n % base;
      DivMod(n, base);
      DigitsValueOfFormat(q, base);
      var front := FormatUint(q, base);
      assert s == front + [DigitChar(r)];
      assert s[..|s| - 1] == front;
      assert DigitsValue(s, base) == Some(q * base + r);
    }
  }

  /** Euclid's division of n by base, as FormatUint takes n apart. */
  lemma DivMod(n: nat, base: nat)
    requires 2 <= base <= n
    ensures n == (n / base) * base + n % base
    ensures 1 <= n / base < n && n % base < base
  {
  }

  /** FormatUint never starts with '0' unless it is "0", and never with a sign. */
  lemma {:induction false} FormatUintLeading(n: nat, base: nat)
    requires 2 <= base <= 36
    ensures |FormatUint(n, base)| >= 1
    ensures n > 0 ==> FormatUint(n, base)[0] != '0'
    ensures IsDigitIn(FormatUint(n, base)[0], base)
    decreases n
  {
    if n >= base {
      var q := n / base;
      DivMod(n, base);
      FormatUintLeading(q, base);
      assert FormatUint(n, base) == FormatUint(q, base) + [DigitChar(n % base)];
    }
  }

  /** Every character of FormatUint is a digit below base. */
  lemma {:induction false} FormatUintDigits(n: nat, base: nat)
    requires 2 <= base <= 36
    ensures forall k :: 0 <= k < |FormatUint(n, base)| ==> IsDigitIn(FormatUint(n, base)[k], base)
  {
    DigitsValueOfFormat(n, base);
  }

  /**
   * ParseUint reads FormatUint's text back exactly when the number fits the width
   * (the decimal text also reads back with base 0).
   */
  lemma ParseFormatUint(n: nat, base: int, bitSize: BitSize)
    requires base == 0 || 2 <= base <= 36
    ensures var text := FormatUint(n, if base == 0 then 10 else base);
      ParseUint(text, base, bitSize) == (if n <= MaxUint(bitSize) then Some(n) else None)
  {
    MagnitudeOfFormat(n, base);
  }

  /** Magnitude reads FormatUint's text (decimal for base 0) back as n. */
  lemma MagnitudeOfFormat(n: nat, base: int)
    requires base == 0 || 2 <= base <= 36
    ensures Magnitude(FormatUint(n, if base == 0 then 10 else base), base) == Some(n)
  {
    var b := if base == 0 then 10 else base;
    var text := FormatUint(n, b);
    DigitsValueOfFormat(n, b);
    if base == 0 {
      FormatUintLeading(n, 10);
      if n == 0 {
        assert text == [DigitChar(0)] == "0";
        assert InferBase(text) == (8, text[1..]) && text[1..] == "";
      } else {
        assert InferBase(text) == (10, text);
      }
    }
  }

  /**
   * ParseInt reads FormatInt's text back exactly when the number fits the signed width
   * (the decimal text also reads back with base 0).
   */
  lemma ParseFormatInt(i: int, base: int, bitSize: BitSize)
    requires base == 0 || 2 <= base <= 36
    ensures var text := FormatInt(i, if base == 0 then 10 else base);
      ParseInt(text, base, bitSize) == (if MinInt(bitSize) <= i <= MaxInt(bitSize) then Some(i) else None)
  {
    var b := if base == 0 then 10 else base;
    var mag := if i < 0 then -i else i;
    var text := FormatInt(i, b);
    MagnitudeOfFormat(mag, base);
    FormatUintLeading(mag, b);
    if i < 0 {
      assert text[1..] == FormatUint(mag, b);
    } else {
      assert text[0] != '+' && text[0] != '-';
    }
  }

  /** FormatInt writes only digits below base and, first, a minus sign. */
  lemma FormatIntChars(i: int, base: nat)
    requires 2 <= base <= 36
    ensures forall k :: 0 <= k < |FormatInt(i, base)| ==>
      IsDigitIn(FormatInt(i, base)[k], base) || FormatInt(i, base)[k] == '-'
  {
    var mag := if i < 0 then -i else i;
    FormatUintDigits(mag, base);
    if i < 0 {
      assert forall k :: 1 <= k < |FormatInt(i, base)| ==> FormatInt(i, base)[k] == FormatUint(mag, base)[k - 1];
    }
  }

  /** ParseUint rejects a text that starts with a sign, whatever the base. */
  lemma ParseUintRejectsSign(s: string, base: int, bitSize: BitSize)
    requires |s| >= 1 && (s[0] == '+' || s[0] == '-')
    ensures ParseUint(s, base, bitSize) == None
  {
  }

  /** A text holding a character that is not a digit below base, after the sign, is rejected. */
  lemma ParseIntRejectsNonDigit(s: string, base: int, bitSize: BitSize, k: nat)
    requires 2 <= base <= 36
    requires 1 <= k < |s| || (k == 0 < |s| && s[0] != '+' && s[0] != '-')
    requires !IsDigitIn(s[k], base)
    ensures ParseInt(s, base, bitSize) == None
  {
  }

  // ---------------------------------------------------------------- other numerals

  /**
   * The sign of ParseInt in terms of ParseUint: a '+' changes nothing, an unsigned text is
   * read as ParseUint reads it but must fit the signed maximum, and '-' negates a magnitude
   * of at most 2^(bits-1).
   */
  lemma ParseIntSigns(s: string, base: int, bitSize: BitSize)
    requires s == [] || (s[0] != '+' && s[0] != '-')
    ensures ParseInt("+" + s, base, bitSize) == ParseInt(s, base, bitSize)
    ensures ParseInt(s, base, bitSize).Some? <==>
      ParseUint(s, base, bitSize).Some? && ParseUint(s, base, bitSize).value <= MaxInt(bitSize)
    ensures ParseInt(s, base, bitSize).Some? ==>
      ParseInt(s, base, bitSize).value == ParseUint(s, base, bitSize).value
    ensures ParseInt("-" + s, base, bitSize).Some? <==>
      ParseUint(s, base, bitSize).Some? && ParseUint(s, base, bitSize).value <= MaxInt(bitSize) + 1
    ensures ParseInt("-" + s, base, bitSize).Some? ==>
      ParseInt("-" + s, base, bitSize).value == -(ParseUint(s, base, bitSize).value as int)
  {
    assert ("+" + s)[1..] == s;
    assert ("-" + s)[1..] == s;
    assert MaxInt(bitSize) + 1 <= MaxUint(bitSize);
  }

  /** A leading zero does not change the value of a run of digits. */
  lemma {:induction false} DigitsValueLeadingZero(s: string, base: nat)
    requires 2 <= base <= 36
    ensures DigitsValue("0" + s, base) == DigitsValue(s, base)
    decreases |s|
  {
    var t := "0" + s;
    if s == [] {
      assert t[..0] == [];
      assert IsDigitIn(t[0], base);
    } else {
      DigitsValueLeadingZero(s[..|s| - 1], base);
      assert t[..|t| - 1] == "0" + s[..|s| - 1];
      assert t[|t| - 1] == s[|s| - 1];
    }
  }

  /** With an explicit base, ParseUint and ParseInt read "007" as "7": leading zeros are ignored. */
  lemma ParseLeadingZero(s: string, base: int, bitSize: BitSize)
    requires 2 <= base <= 36
    requires s != [] && s[0] != '+' && s[0] != '-'
    ensures ParseUint("0" + s, base, bitSize) == ParseUint(s, base, bitSize)
    ensures ParseInt("0" + s, base, bitSize) == ParseInt(s, base, bitSize)
    ensures ParseInt("-0" + s, base, bitSize) == ParseInt("-" + s, base, bitSize)
  {
    DigitsValueLeadingZero(s, base);
    assert ("-0" + s)[1..] == "0" + s;
    assert ("-" + s)[1..] == s;
  }

  /** Digits that differ only in the case of their letters have the same value. */
  lemma SameDigit(c: char, d: char)
    requires Lower(c) == Lower(d)
    ensures DigitValue(c) == DigitValue(d)
  {
  }

  /** DigitsValue does not see the case of letters: "FF" and "ff" are both 255 in base 16. */
  lemma {:induction false} DigitsValueIgnoresCase(s: string, t: string, base: nat)
    requires |s| == |t|
    requires forall k :: 0 <= k < |s| ==> Lower(s[k]) == Lower(t[k])
    ensures DigitsValue(s, base) == DigitsValue(t, base)
    decreases |s|
  {
    if s != [] {
      var n := |s| - 1;
      DigitsValueIgnoresCase(s[..n], t[..n], base);
      SameDigit(s[n], t[n]);
    }
  }

  /**
   * ParseUint and ParseInt do not see the case of letters, in the digits or in the
   * 0B/0O/0X prefixes: "0XFF" reads as "0xff" does.
   */
  lemma ParseIgnoresCase(s: string, t: string, base: int, bitSize: BitSize)
    requires |s| == |t|
    requires forall k :: 0 <= k < |s| ==> Lower(s[k]) == Lower(t[k])
    ensures ParseUint(s, base, bitSize) == ParseUint(t, base, bitSize)
    ensures ParseInt(s, base, bitSize) == ParseInt(t, base, bitSize)
  {
    MagnitudeIgnoresCase(s, t, base);
    if s != [] {
      SignedMagnitudeIgnoresCase(s, t, base);
      ParseIntOfMagnitudes(s, t, base, bitSize);
    }
  }

  /** Two non-empty texts with the same sign and the same magnitude after it parse alike. */
  lemma ParseIntOfMagnitudes(s: string, t: string, base: int, bitSize: BitSize)
    requires s != [] && t != []
    requires s[0] == '-' <==> t[0] == '-'
    requires Magnitude(if s[0] == '+' || s[0] == '-' then s[1..] else s, base)
          == Magnitude(if t[0] == '+' || t[0] == '-' then t[1..] else t, base)
    ensures ParseInt(s, base, bitSize) == ParseInt(t, base, bitSize)
  {
  }

  /** The text after the optional sign has the same magnitude when only letter case differs. */
  lemma SignedMagnitudeIgnoresCase(s: string, t: string, base: int)
    requires |s| == |t| && s != []
    requires forall k :: 0 <= k < |s| ==> Lower(s[k]) == Lower(t[k])
    ensures s[0] == '-' <==> t[0] == '-'
    ensures s[0] == '+' <==> t[0] == '+'
    ensures Magnitude(if s[0] == '+' || s[0] == '-' then s[1..] else s, base)
         == Magnitude(if t[0] == '+' || t[0] == '-' then t[1..] else t, base)
  {
    assert Lower(s[0]) == Lower(t[0]);
    var ds := if s[0] == '+' || s[0] == '-' then s[1..] else s;
    var dt := if t[0] == '+' || t[0] == '-' then t[1..] else t;
    MagnitudeIgnoresCase(ds, dt, base);
  }

  /** Magnitude does not see the case of letters. */
  lemma MagnitudeIgnoresCase(s: string, t: string, base: int)
    requires |s| == |t|
    requires forall k :: 0 <= k < |s| ==> Lower(s[k]) == Lower(t[k])
    ensures Magnitude(s, base) == Magnitude(t, base)
  {
    if s != [] && base == 0 {
      assert s[0] == '0' <==> t[0] == '0';
      var (bs, ds) := InferBase(s);
      var (bt, dt) := InferBase(t);
      assert bs == bt && |ds| == |dt|;
      assert forall k :: 0 <= k < |ds| ==> Lower(ds[k]) == Lower(dt[k]) by {
        assert ds == s[|s| - |ds|..] && dt == t[|t| - |dt|..];
      }
      DigitsValueIgnoresCase(ds, dt, bs);
    } else if 2 <= base <= 36 {
      DigitsValueIgnoresCase(s, t, base);
    }
  }

  /**
   * With base 0, the prefixes select the base of the digits after them: "0x"/"0X" plus
   * hexadecimal digits, "0o"/"0O" plus octal, "0b"/"0B" plus binary, and "0" plus octal
   * digits not starting with 0, each read as the number the digits write, then range checked.
   */
  lemma ParsePrefixed(n: nat, prefix: string, b: nat, bitSize: BitSize)
    requires (prefix in {"0x", "0X"} && b == 16) || (prefix in {"0o", "0O"} && b == 8)
          || (prefix in {"0b", "0B"} && b == 2) || (prefix == "0" && b == 8 && n > 0)
    ensures ParseUint(prefix + FormatUint(n, b), 0, bitSize) == if n <= MaxUint(bitSize) then Some(n) else None
    ensures ParseInt(prefix + FormatUint(n, b), 0, bitSize) == if n <= MaxInt(bitSize) then Some(n) else None
    ensures ParseInt("-" + prefix + FormatUint(n, b), 0, bitSize)
      == if n <= MaxInt(bitSize) + 1 then Some(-(n as int)) else None
  {
    var text := prefix + FormatUint(n, b);
    MagnitudePrefixed(n, prefix, b);
    assert "-" + prefix + FormatUint(n, b) == "-" + text;
    ParseOfMagnitude(text, 0, bitSize, n);
  }

  /** An unsigned text whose magnitude is n parses to n when it fits, and its negation to -n. */
  lemma ParseOfMagnitude(text: string, base: int, bitSize: BitSize, n: nat)
    requires text != [] && text[0] != '+' && text[0] != '-'
    requires Magnitude(text, base) == Some(n)
    ensures ParseUint(text, base, bitSize) == if n <= MaxUint(bitSize) then Some(n) else None
    ensures ParseInt(text, base, bitSize) == if n <= MaxInt(bitSize) then Some(n) else None
    ensures ParseInt("-" + text, base, bitSize) == if n <= MaxInt(bitSize) + 1 then Some(-(n as int)) else None
  {
    assert ("-" + text)[1..] == text;
  }

  /** Magnitude with base 0 reads a prefix and then FormatUint's digits in the prefix's base as n. */
  lemma MagnitudePrefixed(n: nat, prefix: string, b: nat)
    requires (prefix in {"0x", "0X"} && b == 16) || (prefix in {"0o", "0O"} && b == 8)
          || (prefix in {"0b", "0B"} && b == 2) || (prefix == "0" && b == 8 && n > 0)
    ensures Magnitude(prefix + FormatUint(n, b), 0) == Some(n)
  {
    var digits := FormatUint(n, b);
    var text := prefix + digits;
    DigitsValueOfFormat(n, b);
    FormatUintLeading(n, b);
    if |prefix| == 2 {
      assert text[2..] == digits;
    } else {
      assert text[1..] == digits;
      assert Lower(text[1]) == text[1];
    }
    assert InferBase(text) == (b, digits);
  }

  /**
   * With base 0, a character that is not even a hexadecimal digit, after the optional sign,
   * makes the parse fail, unless it is the 'o' or 'x' of a prefix.
   */
  lemma ParseRejectsNonDigitBase0(s: string, bitSize: BitSize, k: nat)
    requires var off := if |s| >= 1 && (s[0] == '+' || s[0] == '-') then 1 else 0;
      off <= k < |s| && !IsDigitIn(s[k], 16) &&
      (k >= off + 2 || (Lower(s[k]) != 'o' && Lower(s[k]) != 'x'))
    ensures ParseInt(s, 0, bitSize) == None
    ensures ParseUint(s, 0, bitSize) == None
  {
    var off := if |s| >= 1 && (s[0] == '+' || s[0] == '-') then 1 else 0;
    var u := s[off..];
    var (b, digits) := InferBase(u);
    var skip := |u| - |digits|;
    assert digits == u[skip..];
    assert u[k - off] == s[k];
    assert k - off >= skip;
    assert digits[k - off - skip] == s[k];
    assert !IsDigitIn(digits[k - off - skip], b);
  }
}
