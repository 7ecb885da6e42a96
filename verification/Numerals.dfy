/**
 The texts kernel_strtoul reads, as a grammar: spaces, a sign, the prefix of the base, the
 longest run of digits, and a rest that is not looked at.  Every text has such a form, and
 from it the result and the end pointer are read off without following the parser.
 */
module Numerals {
  import opened Modular
  import opened Numbers

  // ---------------------------------------------------------------------------
  // Digits and values
  // ---------------------------------------------------------------------------

  const LOWER := ['0', '1', '2', '3', '4', '5', '6', '7', '8', '9',
                  'a', 'b', 'c', 'd', 'e', 'f', 'g', 'h', 'i', 'j', 'k', 'l', 'm',
                  'n', 'o', 'p', 'q', 'r', 's', 't', 'u', 'v', 'w', 'x', 'y', 'z']
  const UPPER := ['0', '1', '2', '3', '4', '5', '6', '7', '8', '9',
                  'A', 'B', 'C', 'D', 'E', 'F', 'G', 'H', 'I', 'J', 'K', 'L', 'M',
                  'N', 'O', 'P', 'Q', 'R', 'S', 'T', 'U', 'V', 'W', 'X', 'Y', 'Z']

  /** The digit d is written in lower or in upper case. */
  predicate Denotes(c: char, d: nat) {
    d < 36 && (c == LOWER[d] || c == UPPER[d])
  }

  lemma TableCodes(d: nat)
    requires d < 36
    ensures d < 10 ==> LOWER[d] as int == '0' as int + d && UPPER[d] == LOWER[d]
    ensures d >= 10 ==> LOWER[d] as int == 'a' as int + d - 10 && UPPER[d] as int == 'A' as int + d - 10
  {
  }

  /** char_to_digit finds the digit a character denotes, and exactly the digits of the base. */
  lemma DigitExact(c: char, radix: int, d: nat)
    ensures DigitOf(c, radix) == d <==> d < radix && Denotes(c, d)
  {
    if d < 36 {
      TableCodes(d);
    }
    var v := DigitOf(c, radix);
    if v == d {
      TableCodes(v);
    }
  }

  /** The number a string of digits denotes in positional notation, highest digit first. */
  function Positional(s: string, radix: nat): nat
    requires AllDigits(s, radix)
    decreases |s|
  {
    if s == [] then 0 else DigitOf(s[0], radix) * Pow(radix, |s| - 1) + Positional(s[1..], radix)
  }

  lemma Horner(d: nat, p: nat, x: nat, radix: nat, c: int)
    ensures d * (radix * p) + (x * radix + c) == (d * p + x) * radix + c
  {
    MulAssoc(d, p, radix);
    assert radix * p == p * radix;
    assert (d * p + x) * radix == d * p * radix + x * radix;
  }

  /** A further digit multiplies by the radix and is added. */
  lemma {:induction false} PositionalAppend(s: string, c: char, radix: nat)
    requires AllDigits(s, radix) && DigitOf(c, radix) >= 0
    ensures AllDigits(s + [c], radix)
    ensures Positional(s + [c], radix) == Positional(s, radix) * radix + DigitOf(c, radix)
    decreases |s|
  {
    var t := s + [c];
    if s == [] {
      assert t == [c] && Positional(t[1..], radix) == 0;
    } else {
      PositionalAppend(s[1..], c, radix);
      assert t[1..] == s[1..] + [c];
      Horner(DigitOf(s[0], radix), Pow(radix, |s| - 1), Positional(s[1..], radix), radix, DigitOf(c, radix));
    }
  }

  lemma {:induction false} ValueIsPositional(s: string, radix: nat)
    requires AllDigits(s, radix)
    ensures Value(s, radix) == Positional(s, radix)
    decreases |s|
  {
    if s != [] {
      var t, c := s[..|s| - 1], s[|s| - 1];
      assert s == t + [c];
      ValueIsPositional(t, radix);
      PositionalAppend(t, c, radix);
    }
  }

  // ---------------------------------------------------------------------------
  // The grammar
  // ---------------------------------------------------------------------------

  /** Where the sign, the prefix, the digits and the rest of a text begin. */
  datatype Cuts = Cuts(sign: nat, prefix: nat, digits: nat, rest: nat)

  predicate Blank(c: char) {
    c in [' ', '\t', '\n', '\r', 11 as char, 12 as char]
  }

  predicate At(s: string, i: nat, c: char) {
    i < |s| && s[i] == c
  }

  predicate HexAt(s: string, i: nat) {
    At(s, i, '0') && (At(s, i + 1, 'x') || At(s, i + 1, 'X'))
  }

  /** With base 0 the prefix decides: 0x is hexadecimal, another 0 octal, no 0 decimal.  With
      base 16 the prefix 0x may be there; other bases have none. */
  predicate Prefixed(s: string, base: int, c: Cuts, radix: int) {
    if base == 0 then
      || (HexAt(s, c.prefix) && c.digits == c.prefix + 2 && radix == 16)
      || (At(s, c.prefix, '0') && !HexAt(s, c.prefix) && c.digits == c.prefix + 1 && radix == 8)
      || (!At(s, c.prefix, '0') && c.digits == c.prefix && radix == 10)
    else if base == 16 then
      radix == 16 && c.digits == if HexAt(s, c.prefix) then c.prefix + 2 else c.prefix
    else c.digits == c.prefix && radix == base
  }

  /** Blanks, at most one sign, the prefix, and digits up to the first character that is none. */
  predicate WellFormed(s: string, base: int, c: Cuts, radix: int) {
    && c.sign <= c.prefix <= c.digits <= c.rest <= |s|
    && (forall k :: 0 <= k < c.sign ==> Blank(s[k])) && (c.sign < |s| ==> !Blank(s[c.sign]))
    && c.prefix == (if At(s, c.sign, '-') || At(s, c.sign, '+') then c.sign + 1 else c.sign)
    && Prefixed(s, base, c, radix)
    && AllDigits(s[c.digits..c.rest], radix)
    && (c.rest < |s| ==> DigitOf(s[c.rest], radix) < 0)
  }

  /** The value of the digits modulo 2^32, negated in two's complement behind a minus sign. */
  function Result(s: string, c: Cuts, radix: int): nat
    requires c.digits <= c.rest <= |s| && AllDigits(s[c.digits..c.rest], radix)
  {
    var v := if radix <= 0 then 0 else Positional(s[c.digits..c.rest], radix) % 0x1_0000_0000;
    if At(s, c.sign, '-') && v != 0 then 0x1_0000_0000 - v else v
  }

  // ---------------------------------------------------------------------------
  // The parser reads the grammar
  // ---------------------------------------------------------------------------

  lemma {:induction false} SkipsBlanks(s: string, i: nat, e: nat)
    requires i <= e <= |s| && forall k :: i <= k < e ==> Blank(s[k])
    requires e < |s| ==> !Blank(s[e])
    ensures SkipSpaces(s, i) == e
    decreases e - i
  {
    if i < e {
      assert Blank(s[i]);
      SkipsBlanks(s, i + 1, e);
    }
  }

  lemma {:induction false} RunsOver(s: string, i: nat, e: nat, radix: int)
    requires i <= e <= |s| && forall k :: i <= k < e ==> DigitOf(s[k], radix) >= 0
    requires e < |s| ==> DigitOf(s[e], radix) < 0
    ensures RunEnd(s, i, radix) == e
    decreases e - i
  {
    if i < e {
      RunsOver(s, i + 1, e, radix);
    }
  }

  lemma StartExact(s: string, base: int, c: Cuts, radix: int)
    requires WellFormed(s, base, c, radix)
    ensures FindStart(s, base) == Start(c.digits, radix, At(s, c.sign, '-'))
  {
    SkipsBlanks(s, 0, c.sign);
    assert HexAt(s, c.prefix) <==> HexPrefix(s, c.prefix);
  }

  lemma EndExact(s: string, base: int, c: Cuts, radix: int)
    requires WellFormed(s, base, c, radix)
    ensures RunEnd(s, c.digits, radix) == c.rest
  {
    forall k | c.digits <= k < c.rest ensures DigitOf(s[k], radix) >= 0 {
      assert s[k] == s[c.digits..c.rest][k - c.digits];
    }
    RunsOver(s, c.digits, c.rest, radix);
  }

  lemma Negated(v: nat)
    requires v < WORD
    ensures (WORD - v) % WORD == if v != 0 then WORD - v else 0
  {
  }

  lemma DigitsExact(digits: string, radix: int)
    requires AllDigits(digits, radix)
    ensures ValueMod(digits, radix) == if radix <= 0 then 0 else Positional(digits, radix) % WORD
    ensures ValueMod(digits, radix) < WORD
  {
    if radix > 0 {
      ValueIsPositional(digits, radix);
    }
  }

  /** On a text of the grammar kernel_strtoul returns the value of its digits in the base the
      prefix tells, negated behind a minus sign, and stops behind the digits. */
  lemma ParseExact(s: string, base: int, c: Cuts, radix: int)
    requires WellFormed(s, base, c, radix)
    ensures Parse(s, base) == (Result(s, c, radix), c.rest)
  {
    StartExact(s, base, c, radix);
    EndExact(s, base, c, radix);
    var digits := s[c.digits..c.rest];
    DigitsExact(digits, radix);
    Negated(ValueMod(digits, radix));
  }

  // ---------------------------------------------------------------------------
  // Every text is of the grammar
  // ---------------------------------------------------------------------------

  lemma {:induction false} FirstNonBlank(s: string, i: nat) returns (e: nat)
    requires i <= |s|
    ensures i <= e <= |s| && (forall k :: i <= k < e ==> Blank(s[k])) && (e < |s| ==> !Blank(s[e]))
    decreases |s| - i
  {
    e := i;
    if i < |s| && Blank(s[i]) {
      e := FirstNonBlank(s, i + 1);
    }
  }

  lemma {:induction false} FirstNonDigit(s: string, i: nat, radix: int) returns (e: nat)
    requires i <= |s|
    ensures i <= e <= |s| && AllDigits(s[i..e], radix) && (e < |s| ==> DigitOf(s[e], radix) < 0)
    decreases |s| - i
  {
    e := i;
    if i < |s| && DigitOf(s[i], radix) >= 0 {
      e := FirstNonDigit(s, i + 1, radix);
      assert s[i..e] == [s[i]] + s[i + 1..e];
    }
  }

  /** Every text, in every base, is of the grammar; so the result on it is as stated. */
  lemma ParsesEveryText(s: string, base: int) returns (c: Cuts, radix: int)
    ensures WellFormed(s, base, c, radix) && Parse(s, base) == (Result(s, c, radix), c.rest)
  {
    var sign := FirstNonBlank(s, 0);
    var prefix := if At(s, sign, '-') || At(s, sign, '+') then sign + 1 else sign;
    var digits := prefix;
    radix := base;
    if (base == 0 || base == 16) && HexAt(s, prefix) {
      digits, radix := prefix + 2, 16;
    } else if base == 0 && At(s, prefix, '0') {
      digits, radix := prefix + 1, 8;
    } else if base == 0 {
      radix := 10;
    }
    var rest := FirstNonDigit(s, digits, radix);
    c := Cuts(sign, prefix, digits, rest);
    ParseExact(s, base, c, radix);
  }
}
