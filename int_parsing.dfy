/** JavaScript's `parseInt(string)` with no radix, as `findById` and
    `deleteById` apply it to the id they are given, and the decimal form
    `String(n)` of an integer. NaN is None. */
module IntParsing {
  import opened Seqs
  import opened Chars

  /** Drops leading white space: what remains is the suffix of `s` after
      its longest run of white space. */
  function TrimStart(s: string): (r: string)
    ensures |r| <= |s| && r == s[|s| - |r|..]
    ensures forall k :: 0 <= k < |s| - |r| ==> IsWhiteSpace(s[k])
    ensures r == [] || !IsWhiteSpace(r[0])
  {
    if s != [] && IsWhiteSpace(s[0]) then TrimStart(s[1..]) else s
  }

  /** Value of a digit in bases up to 36; 36 for a character that is no
      digit in any base. */
  function DigitValue(c: char): (v: nat)
    ensures v <= 36
    ensures IsDecimalDigit(c) <==> v < 10
    ensures '0' <= c <= '9' ==> v == c as int - '0' as int
    ensures 'a' <= c <= 'z' ==> v == c as int - 'a' as int + 10
    ensures 'A' <= c <= 'Z' ==> v == c as int - 'A' as int + 10
    ensures !('0' <= c <= '9' || 'a' <= c <= 'z' || 'A' <= c <= 'Z') ==> v == 36
  {
    if '0' <= c <= '9' then c as int - '0' as int
    else if 'a' <= c <= 'z' then c as int - 'a' as int + 10
    else if 'A' <= c <= 'Z' then c as int - 'A' as int + 10
    else 36
  }

  /** The longest prefix of `s` made of digits of the given base. */
  function DigitPrefix(s: string, radix: nat): (r: string)
    ensures |r| <= |s| && r == s[..|r|]
    ensures forall k :: 0 <= k < |r| ==> DigitValue(r[k]) < radix
    ensures |r| < |s| ==> DigitValue(s[|r|]) >= radix
  {
    if s != [] && DigitValue(s[0]) < radix then [s[0]] + DigitPrefix(s[1..], radix) else []
  }

  /** The number the digits denote, most significant first. */
  function DigitsValue(ds: string, radix: nat): nat
  {
    if ds == [] then 0 else DigitsValue(ds[..|ds| - 1], radix) * radix + DigitValue(ds[|ds| - 1])
  }

  /** The digits after the sign: a `0x` or `0X` prefix selects base 16
      (base 10 otherwise), then the longest run of digits is read; None when
      that run is empty. */
  function ParseMagnitude(u: string): Option<nat>
  {
    var hex := |u| >= 2 && u[0] == '0' && (u[1] == 'x' || u[1] == 'X');
    var radix := if hex then 16 else 10;
    var ds := DigitPrefix(if hex then u[2..] else u, radix);
    if ds == [] then None else Some(DigitsValue(ds, radix))
  }

  /** The text after the white space: an optional sign, then the
      magnitude; NaN (None) when there are no digits. */
  function ParseSigned(t: string): (r: Option<int>)
    ensures t == [] ==> r.None?
    ensures r.Some? && r.value < 0 ==> t[0] == '-'
  {
    var negative := t != [] && t[0] == '-';
    var m := ParseMagnitude(if t != [] && (t[0] == '-' || t[0] == '+') then t[1..] else t);
    match m
    case None => None
    case Some(v) => Some(if negative then -(v as int) else v as int)
  }

  /** `parseInt(s)`: skip white space, then read the signed magnitude. */
  function ParseInt(s: string): (r: Option<int>)
    ensures TrimStart(s) == [] ==> r.None?
    ensures r.Some? && r.value < 0 ==> TrimStart(s)[0] == '-'
  {
    ParseSigned(TrimStart(s))
  }

  function DigitChar(d: nat): (c: char)
    requires d < 10
    ensures IsDecimalDigit(c) && DigitValue(c) == d
  {
    ('0' as int + d) as char
  }

  /** The decimal digits of a natural number, with no leading zero. */
  function DecimalDigits(n: nat): (r: string)
    ensures r != []
    ensures forall k :: 0 <= k < |r| ==> IsDecimalDigit(r[k])
    ensures n > 0 ==> r[0] != '0'
  {
    if n < 10 then [DigitChar(n)] else DecimalDigits(n / 10) + [DigitChar(n % 10)]
  }

  /** `String(n)` for an integer `n`. */
  function DecimalString(n: int): (r: string)
    ensures r != []
    ensures r[0] == '-' <==> n < 0
    ensures forall k :: (if n < 0 then 1 else 0) <= k < |r| ==> IsDecimalDigit(r[k])
  {
    if n < 0 then "-" + DecimalDigits(-n) else DecimalDigits(n)
  }

  /** The decimal digits of `n` denote `n`. */
  lemma {:induction false} DecimalDigitsValue(n: nat)
    ensures DigitsValue(DecimalDigits(n), 10) == n
  {
    var ds := DecimalDigits(n);
    if n >= 10 {
      DecimalDigitsValue(n / 10);
      assert ds[..|ds| - 1] == DecimalDigits(n / 10);
    }
  }

  /** A run of digits followed by a character that is not one is exactly
      the digit prefix. */
  lemma {:induction false} DigitPrefixOfDigits(ds: string, rest: string, radix: nat)
    requires forall k :: 0 <= k < |ds| ==> DigitValue(ds[k]) < radix
    requires rest == [] || DigitValue(rest[0]) >= radix
    ensures DigitPrefix(ds + rest, radix) == ds
  {
    if ds != [] {
      DigitPrefixOfDigits(ds[1..], rest, radix);
      assert (ds + rest)[1..] == ds[1..] + rest;
    } else {
      assert ds + rest == rest;
    }
  }

  /** Text after the decimal form of `n` that does not continue the
      number: no further digit, and no `x` or `X` that would turn the form
      `0` into a hexadecimal prefix. */
  predicate Ends(n: int, rest: string) {
    rest == [] || !(IsDecimalDigit(rest[0]) || (n == 0 && (rest[0] == 'x' || rest[0] == 'X')))
  }

  /** `parseInt` reads back the decimal form of any integer, whatever
      follows it, as long as that does not continue the number. */
  lemma ParseIntDecimal(n: int, rest: string)
    requires Ends(n, rest)
    ensures ParseInt(DecimalString(n) + rest) == Some(n)
  {
    if n < 0 {
      ParseNegative(n, rest);
    } else {
      ParseNonNegative(n, rest);
    }
  }

  lemma ParseNegative(n: int, rest: string)
    requires rest == [] || !IsDecimalDigit(rest[0])
    requires n < 0
    ensures ParseInt(DecimalString(n) + rest) == Some(n)
  {
    var m: nat := -n;
    assert Ends(m, rest);
    MagnitudeOfDecimal(m, rest);
    var u := DecimalDigits(m) + rest;
    assert DecimalString(n) + rest == ['-'] + u;
    ParseIntMinus(u, m);
  }

  lemma ParseNonNegative(m: nat, rest: string)
    requires Ends(m, rest)
    ensures ParseInt(DecimalString(m) + rest) == Some(m)
  {
    MagnitudeOfDecimal(m, rest);
    var s := DecimalString(m) + rest;
    assert s == DecimalDigits(m) + rest;
    assert IsDecimalDigit(s[0]);
    ParseIntDigits(s, m);
  }

  /** How `parseInt` reads a minus sign followed by a magnitude. */
  lemma ParseIntMinus(u: string, m: nat)
    requires ParseMagnitude(u) == Some(m)
    ensures ParseInt(['-'] + u) == Some(-(m as int))
  {
    var s := ['-'] + u;
    NoTrim(s);
    assert s[0] == '-' && s[1..] == u;
    assert ParseSigned(s) == Some(-(m as int));
  }

  /** How `parseInt` reads a magnitude that starts with a digit. */
  lemma ParseIntDigits(s: string, m: nat)
    requires s != [] && IsDecimalDigit(s[0])
    requires ParseMagnitude(s) == Some(m)
    ensures ParseInt(s) == Some(m as int)
  {
    NoTrim(s);
  }

  /** Text that starts with a character other than white space is not
      trimmed. */
  lemma NoTrim(s: string)
    requires s != [] && (s[0] == '-' || IsDecimalDigit(s[0]))
    ensures TrimStart(s) == s
  {
  }

  /** The magnitude read from the decimal digits of `m` is `m`. */
  lemma MagnitudeOfDecimal(m: nat, rest: string)
    requires Ends(m, rest)
    ensures ParseMagnitude(DecimalDigits(m) + rest) == Some(m)
  {
    var ds := DecimalDigits(m);
    DecimalDigitsValue(m);
    DigitPrefixOfDigits(ds, rest, 10);
    var u := ds + rest;
    if |u| >= 2 && u[0] == '0' {
      assert u[0] == ds[0];
      assert m == 0 && |ds| == 1;
      assert u[1] == rest[0];
    }
  }

  /** `parseInt(String(n)) === n`. */
  lemma ParseIntRoundTrip(n: int)
    ensures ParseInt(DecimalString(n)) == Some(n)
  {
    ParseIntDecimal(n, []);
    assert DecimalString(n) + [] == DecimalString(n);
  }

  /** After the white space, a character that is neither a sign nor a
      digit gives NaN. */
  lemma ParseIntNoDigit(s: string)
    ensures var t := TrimStart(s);
      t != [] && !IsDecimalDigit(t[0]) && t[0] != '-' && t[0] != '+' ==> ParseInt(s).None?
  {
    var t := TrimStart(s);
    if t != [] && !IsDecimalDigit(t[0]) && t[0] != '-' && t[0] != '+' {
      MagnitudeNoDigit(t);
      assert ParseSigned(t).None?;
    }
  }

  lemma MagnitudeNoDigit(u: string)
    requires u != [] && !IsDecimalDigit(u[0])
    ensures ParseMagnitude(u).None?
  {
    assert DigitValue(u[0]) >= 10;
  }

  /** After the white space, a lone digit or two digits give a
      non-negative number. */
  lemma ParseIntDigitStart(s: string)
    ensures var t := TrimStart(s);
      t != [] && IsDecimalDigit(t[0]) && (|t| == 1 || IsDecimalDigit(t[1])) ==>
        ParseInt(s).Some? && ParseInt(s).value >= 0
  {
    var t := TrimStart(s);
    if t != [] && IsDecimalDigit(t[0]) && (|t| == 1 || IsDecimalDigit(t[1])) {
      MagnitudeDigitStart(t);
      assert ParseSigned(t).Some? && ParseSigned(t).value >= 0;
    }
  }

  lemma MagnitudeDigitStart(u: string)
    requires u != [] && IsDecimalDigit(u[0]) && (|u| == 1 || IsDecimalDigit(u[1]))
    ensures ParseMagnitude(u).Some?
  {
    assert DigitValue(u[0]) < 10;
  }

  /** The hexadecimal path: a `0x` or `0X` prefix selects base 16, and
      letters of either case are digits 10 to 15. */
  lemma HexadecimalUpper()
    ensures ParseInt("0x1A") == Some(26)
  {
    NoTrim("0x1A");
    assert "0x1A"[2..] == "1A";
    assert DigitPrefix("1A", 16) == "1A" by {
      assert "1A"[1..] == "A" && "A"[1..] == [];
    }
    assert DigitsValue("1A", 16) == 26 by {
      assert "1A"[..1] == "1" && "1"[..0] == [];
    }
  }

  /** A sign before the prefix, and lower-case hexadecimal digits. */
  lemma HexadecimalNegative()
    ensures ParseInt("-0xff!") == Some(-255)
  {
    NoTrim("-0xff!");
    assert "-0xff!"[1..] == "0xff!" && "0xff!"[2..] == "ff!";
    assert DigitPrefix("ff!", 16) == "ff" by {
      assert "ff!"[1..] == "f!" && "f!"[1..] == "!";
    }
    assert DigitsValue("ff", 16) == 255 by {
      assert "ff"[..1] == "f" && "f"[..0] == [];
    }
  }

  /** A prefix with no digit after it is NaN. */
  lemma HexadecimalEmpty()
    ensures ParseInt("0x") == None
  {
    NoTrim("0x");
    assert "0x"[2..] == [];
  }
}
