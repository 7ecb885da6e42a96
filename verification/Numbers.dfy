/**
 Numbers as text: the log's printers klog_dec, klog_hex32 and klog_hex64 (kernel/klog.c)
 and the parser kernel_strtoul (lib/kernel_string.c).
 */
module Numbers {
  import opened Modular

  const WORD: nat := 0x1_0000_0000

  // ---------------------------------------------------------------------------
  // Digits
  // ---------------------------------------------------------------------------

  /** char_to_digit: the value of a digit in a base, or -1. */
  function DigitOf(c: char, base: int): (d: int)
    ensures d == -1 || 0 <= d < base
  {
    var v :=
      if '0' <= c <= '9' then c as int - '0' as int
      else if 'a' <= c <= 'z' then c as int - 'a' as int + 10
      else if 'A' <= c <= 'Z' then c as int - 'A' as int + 10
      else -1;
    if v >= base then -1 else v
  }

  function DigitChar(d: nat): char
    requires d < 16
  {
    "0123456789ABCDEF"[d]
  }

  lemma DigitCharIsDigit(d: nat, base: nat)
    requires d < base <= 16
    ensures DigitOf(DigitChar(d), base) == d
  {
    var digits := ['0', '1', '2', '3', '4', '5', '6', '7', '8', '9', 'A', 'B', 'C', 'D', 'E', 'F'];
    assert DigitChar(d) == digits[d];
    if d < 10 {
      assert digits[d] as int == '0' as int + d;
    } else {
      assert digits[d] as int == 'A' as int + (d - 10);
    }
  }

  predicate AllDigits(s: string, base: int) {
    forall i :: 0 <= i < |s| ==> DigitOf(s[i], base) >= 0
  }

  /** The number that a string of digits denotes. */
  function Value(s: string, base: nat): nat
    requires AllDigits(s, base)
  {
    if s == [] then 0
    else Value(s[..|s| - 1], base) * base + DigitOf(s[|s| - 1], base)
  }

  function Pow(base: nat, n: nat): nat
    decreases n, base
  {
    if n == 0 then 1 else base * Pow(base, n - 1)
  }

  lemma {:induction false} PowPositive(base: nat, n: nat)
    requires base > 0
    ensures Pow(base, n) > 0
  {
    if n > 0 {
      PowPositive(base, n - 1);
      MulGrows(Pow(base, n - 1), base);
    }
  }

  /** Splitting off the lowest digit. */
  lemma ModSplit(v: nat, b: nat, m: nat)
    requires b > 0 && m > 0
    ensures b * m > 0 && v % (b * m) == (v / b % m) * b + v % b && v / (b * m) == v / b / m
  {
    var q, r := v / b, v % b;
    var k, q' := q / m, q % m;
    MulGrows(m, b);
    assert v == b * q + r && q == m * k + q';
    MulAssoc(b, m, k);
    assert b * q == b * (m * k) + b * q';
    assert b * q' + r < b * m by {
      MulDist(b, m, q');
      MulGrows(b, m - q');
    }
    ModUnique(v, b * m, k, b * q' + r);
  }

  // ---------------------------------------------------------------------------
  // Printing
  // ---------------------------------------------------------------------------

  function LowDigit(v: nat, base: nat): char
    requires 0 < base <= 16
  {
    DigitChar(v % base)
  }

  /** The lowest n digits of v. */
  function Fixed(v: nat, n: nat, base: nat): (s: string)
    requires 0 < base <= 16
    ensures |s| == n
    decreases n, v
  {
    if n == 0 then [] else Fixed(v / base, n - 1, base) + [LowDigit(v, base)]
  }

  /** The lowest n digits of v without leading zeros; nothing for zero. */
  function Short(v: nat, n: nat, base: nat): (s: string)
    requires 2 <= base <= 16
    ensures |s| <= n && (v > 0 && n > 0 ==> s != [])
    decreases n, v
  {
    if n == 0 || v == 0 then [] else Short(v / base, n - 1, base) + [LowDigit(v, base)]
  }

  function Dec(v: nat): string {
    if v == 0 then "0" else Short(v, 9, 10)
  }

  lemma ValueAppend(s: string, d: nat, base: nat)
    requires AllDigits(s, base) && d < base <= 16
    ensures AllDigits(s + [DigitChar(d)], base)
    ensures Value(s + [DigitChar(d)], base) == Value(s, base) * base + d
  {
    DigitCharIsDigit(d, base);
    assert (s + [DigitChar(d)])[..|s|] == s;
  }

  /** One more digit: from v / base modulo m to v modulo base * m. */
  lemma ValueStep(s: string, v: nat, m: nat, base: nat)
    requires 0 < base <= 16 && m > 0 && AllDigits(s, base) && Value(s, base) == v / base % m
    ensures AllDigits(s + [LowDigit(v, base)], base) && base * m > 0
    ensures Value(s + [LowDigit(v, base)], base) == v % (base * m)
  {
    ModSplit(v, base, m);
    ValueAppend(s, v % base, base);
  }

  lemma {:induction false} FixedValue(v: nat, n: nat, base: nat)
    requires 0 < base <= 16
    ensures AllDigits(Fixed(v, n, base), base) && Pow(base, n) > 0
    ensures Value(Fixed(v, n, base), base) == v % Pow(base, n)
    decreases n
  {
    PowPositive(base, n);
    if n > 0 {
      PowPositive(base, n - 1);
      FixedValue(v / base, n - 1, base);
      ValueStep(Fixed(v / base, n - 1, base), v, Pow(base, n - 1), base);
    }
  }

  lemma {:induction false} ShortValue(v: nat, n: nat, base: nat)
    requires 2 <= base <= 16
    ensures AllDigits(Short(v, n, base), base) && Pow(base, n) > 0
    ensures Value(Short(v, n, base), base) == v % Pow(base, n)
    decreases n
  {
    PowPositive(base, n);
    if n > 0 && v > 0 {
      PowPositive(base, n - 1);
      ShortValue(v / base, n - 1, base);
      ValueStep(Short(v / base, n - 1, base), v, Pow(base, n - 1), base);
    }
  }

  lemma Pows()
    ensures Pow(10, 9) == 1_000_000_000 && Pow(16, 8) == WORD && Pow(16, 16) == WORD * WORD
  {
    assert Pow(10, 3) == 1000;
    assert Pow(10, 6) == 1_000_000;
    assert Pow(16, 4) == 0x1_0000;
    assert Pow(16, 8) == WORD;
    assert Pow(16, 12) == WORD * 0x1_0000;
  }

  /** klog_dec: nine digits at most, filled from the right of a ten-byte buffer. */
  method KlogDec(val: nat) returns (out: string)
    ensures out == Dec(val)
  {
    if val == 0 {
      return "0";
    }
    out := PrintShort(val, 9);
  }

  lemma ShortStep(v: nat, i: nat, base: nat, rest: string)
    requires 2 <= base <= 16 && v > 0
    ensures Short(v, i + 1, base) + rest == Short(v / base, i, base) + ([LowDigit(v, base)] + rest)
  {
  }

  /** The loop of klog_dec, with its buffer of n digits and an end mark. */
  method PrintShort(val: nat, n: nat) returns (out: string)
    ensures out == Short(val, n, 10)
  {
    var tmp := new char[n + 1];
    var i: nat, v: nat := n, val;
    tmp[n] := '\0';
    while v > 0 && i > 0
      invariant i <= n && Short(val, n, 10) == Short(v, i, 10) + tmp[i..n]
      decreases i
    {
      i := i - 1;
      ShortStep(v, i, 10, tmp[i + 1..n]);
      ghost var rest := tmp[i + 1..n];
      tmp[i] := LowDigit(v, 10);
      assert tmp[i..n] == [LowDigit(v, 10)] + rest;
      v := v / 10;
    }
    out := Emit(tmp, i, n);
  }

  method Emit(tmp: array<char>, start: nat, n: nat) returns (out: string)
    requires start <= n <= tmp.Length
    ensures out == tmp[start..n]
  {
    out := [];
    for i := start to n
      invariant out == tmp[start..i]
    {
      out := out + [tmp[i]];
    }
  }

  /** klog_hex32 with n = 8 and klog_hex64 with n = 16: from the highest nibble down. */
  method KlogHex(val: nat, n: nat) returns (out: string)
    ensures out == Fixed(val, n, 16)
  {
    out := [];
    var i := n;
    PowPositive(16, n);
    while i > 0
      invariant 0 <= i <= n && Pow(16, i) > 0 && out == Fixed(val / Pow(16, i), n - i, 16)
    {
      i := i - 1;
      PowPositive(16, i);
      ModSplit(val, Pow(16, i), 16);
      assert Pow(16, i + 1) == Pow(16, i) * 16;
      out := out + [DigitChar(val / Pow(16, i) % 16)];
    }
    assert val / Pow(16, 0) == val;
  }

  // ---------------------------------------------------------------------------
  // Parsing
  // ---------------------------------------------------------------------------

  /** The character under the pointer; a C string ends in a null character. */
  function CharAt(s: string, i: nat): char {
    if i < |s| then s[i] else '\0'
  }

  predicate IsSpace(c: char) {
    c == ' ' || c == '\t' || c == '\n' || c == '\r' || c as int == 11 || c as int == 12
  }

  function SkipSpaces(s: string, i: nat): (r: nat)
    requires i <= |s|
    ensures i <= r <= |s| && !IsSpace(CharAt(s, r)) && forall k :: i <= k < r ==> IsSpace(s[k])
    decreases |s| - i
  {
    if IsSpace(CharAt(s, i)) then SkipSpaces(s, i + 1) else i
  }

  /** Where the digits start, in which base, and whether a minus sign came before. */
  datatype Start = Start(at: nat, base: int, negative: bool)

  predicate HexPrefix(s: string, i: nat) {
    CharAt(s, i) == '0' && (CharAt(s, i + 1) == 'x' || CharAt(s, i + 1) == 'X')
  }

  function FindStart(s: string, base: int): (r: Start)
    ensures r.at <= |s|
  {
    var p := SkipSpaces(s, 0);
    var negative := CharAt(s, p) == '-';
    var q := if negative || CharAt(s, p) == '+' then p + 1 else p;
    if base == 0 then
      if HexPrefix(s, q) then Start(q + 2, 16, negative)
      else if CharAt(s, q) == '0' then Start(q + 1, 8, negative)
      else Start(q, 10, negative)
    else if base == 16 && HexPrefix(s, q) then Start(q + 2, 16, negative)
    else Start(q, base, negative)
  }

  /** The end of the longest run of digits from i on. */
  function RunEnd(s: string, i: nat, base: int): (r: nat)
    requires i <= |s|
    ensures i <= r <= |s| && (forall k :: i <= k < r ==> DigitOf(s[k], base) >= 0)
    ensures r < |s| ==> DigitOf(s[r], base) < 0
    decreases |s| - i
  {
    if i == |s| || DigitOf(s[i], base) < 0 then i else RunEnd(s, i + 1, base)
  }

  /** The number a string of digits denotes, modulo the word; no string has digits in a
      base below one. */
  function ValueMod(s: string, base: int): nat
    requires AllDigits(s, base)
  {
    if base <= 0 then 0 else Value(s, base) % WORD
  }

  /** What kernel_strtoul returns, and how far it reads. */
  function Parse(s: string, base: int): (nat, nat) {
    var st := FindStart(s, base);
    var e := RunEnd(s, st.at, st.base);
    var v := ValueMod(s[st.at..e], st.base);
    (if st.negative then (WORD - v) % WORD else v, e)
  }

  lemma WrapStep(v: nat, base: nat, d: nat)
    ensures ((v % WORD) * base + d) % WORD == (v * base + d) % WORD
  {
    var k, r := v / WORD, v % WORD;
    assert v == WORD * k + r;
    MulAssoc(WORD, k, base);
    assert v * base == WORD * k * base + r * base;
    assert v * base + d == WORD * (k * base) + (r * base + d);
    ModShift(r * base + d, k * base, WORD);
  }

  /** Wrapping at every digit gives the whole number modulo the word. */
  lemma DigitStep(s: string, start: nat, p: nat, base: int)
    requires start <= p < |s| && AllDigits(s[start..p], base) && DigitOf(s[p], base) >= 0
    ensures AllDigits(s[start..p + 1], base)
    ensures ValueMod(s[start..p + 1], base) == (ValueMod(s[start..p], base) * base + DigitOf(s[p], base)) % WORD
  {
    var t := s[start..p + 1];
    assert t[..|t| - 1] == s[start..p];
    WrapStep(Value(s[start..p], base), base, DigitOf(s[p], base));
  }

  method ReadDigits(s: string, start: nat, base: int) returns (result: nat, p: nat)
    requires start <= |s|
    ensures p == RunEnd(s, start, base) && result == ValueMod(s[start..p], base)
  {
    p := start;
    result := 0;
    while CharAt(s, p) != '\0'
      invariant start <= p <= |s| && RunEnd(s, start, base) == RunEnd(s, p, base)
      invariant AllDigits(s[start..p], base) && result == ValueMod(s[start..p], base)
      decreases |s| - p
    {
      var digit := DigitOf(s[p], base);
      if digit < 0 {
        break;
      }
      DigitStep(s, start, p, base);
      result := (result * base + digit) % WORD;
      p := p + 1;
    }
  }

  method ReadStart(s: string, base: int) returns (p: nat, b: int, negative: bool)
    ensures FindStart(s, base) == Start(p, b, negative)
  {
    p := 0;
    while IsSpace(CharAt(s, p))
      invariant p <= |s| && SkipSpaces(s, 0) == SkipSpaces(s, p)
      decreases |s| - p
    {
      p := p + 1;
    }
    b := base;
    negative := false;
    if CharAt(s, p) == '-' {
      negative := true;
      p := p + 1;
    } else if CharAt(s, p) == '+' {
      p := p + 1;
    }
    if b == 0 {
      if CharAt(s, p) == '0' {
        if CharAt(s, p + 1) == 'x' || CharAt(s, p + 1) == 'X' {
          b := 16;
          p := p + 2;
        } else {
          b := 8;
          p := p + 1;
        }
      } else {
        b := 10;
      }
    } else if b == 16 {
      if CharAt(s, p) == '0' && (CharAt(s, p + 1) == 'x' || CharAt(s, p + 1) == 'X') {
        p := p + 2;
      }
    }
  }

  /** kernel_strtoul. */
  method Strtoul(s: string, base: int) returns (result: nat, end: nat)
    ensures (result, end) == Parse(s, base)
  {
    var p, b, negative := ReadStart(s, base);
    result, end := ReadDigits(s, p, b);
    if negative {
      result := (WORD - result) % WORD;
    }
  }

  // ---------------------------------------------------------------------------
  // Round trips
  // ---------------------------------------------------------------------------

  /** A string of printed digits is read whole, in its own base. */
  lemma ParseDigits(s: string, base: nat)
    requires s != [] && AllDigits(s, base) && 2 <= base <= 16
    requires forall i :: 0 <= i < |s| ==> s[i] != 'x' && s[i] != 'X'
    ensures Parse(s, base) == (Value(s, base) % WORD, |s|)
  {
    assert DigitOf(s[0], base) >= 0;
    assert SkipSpaces(s, 0) == 0 && CharAt(s, 0) != '-' && CharAt(s, 0) != '+';
    assert !HexPrefix(s, 0);
    assert FindStart(s, base) == Start(0, base, false);
    assert RunEnd(s, 0, base) == |s|;
    assert s[0..|s|] == s;
  }

  lemma NoX(s: string, base: nat)
    requires AllDigits(s, base) && base <= 16
    ensures forall i :: 0 <= i < |s| ==> s[i] != 'x' && s[i] != 'X'
  {
  }

  lemma FixedRoundTrip(v: nat, n: nat, base: nat)
    requires n > 0 && 2 <= base <= 16
    ensures Pow(base, n) > 0 && Parse(Fixed(v, n, base), base) == (v % Pow(base, n) % WORD, n)
  {
    FixedValue(v, n, base);
    NoX(Fixed(v, n, base), base);
    ParseDigits(Fixed(v, n, base), base);
  }

  lemma ShortRoundTrip(v: nat, n: nat, base: nat)
    requires n > 0 && v > 0 && 2 <= base <= 16
    ensures Pow(base, n) > 0 && Parse(Short(v, n, base), base) == (v % Pow(base, n) % WORD, |Short(v, n, base)|)
  {
    ShortValue(v, n, base);
    NoX(Short(v, n, base), base);
    ParseDigits(Short(v, n, base), base);
  }

  lemma HexWords(v: nat)
    ensures Pow(16, 8) > 0 && (v < WORD ==> v % Pow(16, 8) % WORD == v)
    ensures Pow(16, 16) > 0 && (v < WORD * WORD ==> v % Pow(16, 16) % WORD == v % WORD)
  {
    Pows();
  }

  lemma DecWords(v: nat)
    ensures Pow(10, 9) > 0 && v % Pow(10, 9) % WORD == v % 1_000_000_000
    ensures v % 1_000_000_000 == v <==> v < 1_000_000_000
  {
    Pows();
  }

  /** Reading back what klog_hex32 printed gives the value; klog_hex64, its low word. */
  lemma HexRoundTrip(v: nat)
    ensures v < WORD ==> Parse(Fixed(v, 8, 16), 16) == (v, 8)
    ensures v < WORD * WORD ==> Parse(Fixed(v, 16, 16), 16) == (v % WORD, 16)
  {
    HexWords(v);
    FixedRoundTrip(v, 8, 16);
    FixedRoundTrip(v, 16, 16);
  }

  /** Reading back what klog_dec printed gives the value modulo 10^9: the tenth digit of a
      large value is not printed. */
  lemma DecRoundTrip(v: nat)
    requires v < WORD
    ensures Parse(Dec(v), 10) == (v % 1_000_000_000, |Dec(v)|)
    ensures Parse(Dec(v), 10).0 == v <==> v < 1_000_000_000
  {
    DecWords(v);
    if v == 0 {
      ZeroRoundTrip();
    } else {
      NonzeroRoundTrip(v);
    }
  }

  lemma NonzeroRoundTrip(v: nat)
    requires v > 0
    ensures Pow(10, 9) > 0 && Parse(Dec(v), 10) == (v % Pow(10, 9) % WORD, |Dec(v)|)
  {
    ShortRoundTrip(v, 9, 10);
  }

  lemma ZeroRoundTrip()
    ensures Parse("0", 10) == (0, 1)
  {
    DigitCharIsDigit(0, 10);
    ParseDigits("0", 10);
  }
}
