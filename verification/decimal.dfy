/** Decimal numbers as printf and scanf treat them under %d, with a 32-bit int. */
module Decimal {
  const INT_MAX := 0x7fff_ffff

  predicate IsInt(v: int) {
    -0x8000_0000 <= v <= INT_MAX
  }

  /** Conversion to int keeps the low 32 bits. */
  function ToInt32(v: int): (r: int)
    ensures IsInt(r) && (IsInt(v) ==> r == v)
  {
    (v + 0x8000_0000) % 0x1_0000_0000 - 0x8000_0000
  }

  predicate IsDigit(c: char) {
    '0' <= c <= '9'
  }

  predicate IsSpace(c: char) {
    c == ' ' || '\t' <= c <= '\r'
  }

  function DigitValue(c: char): (d: nat)
    requires IsDigit(c)
    ensures d < 10
  {
    c as int - '0' as int
  }

  function DigitChar(d: nat): (c: char)
    requires d < 10
    ensures IsDigit(c) && DigitValue(c) == d
  {
    (d + '0' as int) as char
  }

  /** '0' is worth nothing, and two digits are as far apart as their characters. */
  lemma DigitsInOrder(c: char, d: char)
    requires IsDigit(c) && IsDigit(d)
    ensures DigitValue('0') == 0 && DigitValue(c) - DigitValue(d) == c as int - d as int
  {
  }

  /** The ints are the numbers that the conversion leaves alone; the next one above them wraps around. */
  lemma IntLimits(v: int)
    ensures ToInt32(v) == v <==> -2147483648 <= v <= 2147483647
    ensures ToInt32(2147483648) == -2147483648 && ToInt32(4294967297) == 1
  {
  }

  predicate AllDigits(s: string) {
    forall k | 0 <= k < |s| :: IsDigit(s[k])
  }

  function PrintNat(n: nat): (s: string)
    ensures s != [] && AllDigits(s)
  {
    if n < 10 then [DigitChar(n)] else PrintNat(n / 10) + [DigitChar(n % 10)]
  }

  function PrintInt(i: int): string {
    if i < 0 then "-" + PrintNat(-i) else PrintNat(i)
  }

  function Value(s: string): nat
    requires AllDigits(s)
  {
    if s == [] then 0 else 10 * Value(s[..|s| - 1]) + DigitValue(s[|s| - 1])
  }

  lemma {:induction false} ValueOfPrint(n: nat)
    ensures Value(PrintNat(n)) == n
  {
    if n < 10 {
      assert [DigitChar(n)][..0] == [];
    } else {
      ValueOfPrint(n / 10);
      assert PrintNat(n)[..|PrintNat(n)| - 1] == PrintNat(n / 10);
    }
  }

  /** Length of the leading characters that satisfy the class. */
  function SpaceRun(s: string): (n: nat)
    ensures n <= |s|
  {
    if s == [] || !IsSpace(s[0]) then 0 else 1 + SpaceRun(s[1..])
  }

  function DigitRun(s: string): (n: nat)
    ensures n <= |s| && AllDigits(s[..n])
    ensures n < |s| ==> !IsDigit(s[n])
  {
    if s == [] || !IsDigit(s[0]) then 0 else 1 + DigitRun(s[1..])
  }

  datatype Scan = NoMatch | Match(value: int, rest: string)

  function ScanUnsigned(s: string, negative: bool): Scan {
    var n := DigitRun(s);
    if n == 0 then NoMatch
    else Match(ToInt32(if negative then 0 - Value(s[..n]) else Value(s[..n])), s[n..])
  }

  /** %d at the front of s: blanks, an optional sign and at least one digit. */
  function ScanInt(s: string): (r: Scan)
    ensures r.Match? ==> r.value <= INT_MAX
  {
    var t := s[SpaceRun(s)..];
    if t != [] && (t[0] == '-' || t[0] == '+') then ScanUnsigned(t[1..], t[0] == '-') else ScanUnsigned(t, false)
  }

  function Atoi(s: string): int {
    match ScanInt(s)
    case NoMatch => 0
    case Match(v, _) => v
  }

  lemma {:induction false} DigitRunOf(a: string, b: string)
    requires AllDigits(a) && (b != [] ==> !IsDigit(b[0]))
    ensures DigitRun(a + b) == |a|
  {
    if a == [] {
      assert a + b == b;
    } else {
      assert (a + b)[1..] == a[1..] + b;
      DigitRunOf(a[1..], b);
    }
  }

  /** A printed number is read back, up to whatever follows it that is not a digit. */
  lemma ScanPrinted(n: nat, rest: string)
    requires n <= INT_MAX && (rest != [] ==> !IsDigit(rest[0]))
    ensures ScanInt(PrintNat(n) + rest) == Match(n, rest)
  {
    var p := PrintNat(n);
    var s := p + rest;
    DigitRunOf(p, rest);
    ValueOfPrint(n);
    assert s[0] == p[0] && IsDigit(s[0]);
    assert SpaceRun(s) == 0 && s[0..] == s;
    assert s[..|p|] == p && s[|p|..] == rest;
  }

  lemma Blanks(c: char)
    ensures IsSpace(c) <==> c as int in {9, 10, 11, 12, 13, 32}
  {
  }

  lemma {:induction false} BlanksSkipped(blanks: string, rest: string)
    requires (forall k | 0 <= k < |blanks| :: IsSpace(blanks[k])) && (rest != [] ==> !IsSpace(rest[0]))
    ensures SpaceRun(blanks + rest) == |blanks|
  {
    if blanks == [] {
      assert blanks + rest == rest;
    } else {
      assert (blanks + rest)[1..] == blanks[1..] + rest;
      BlanksSkipped(blanks[1..], rest);
    }
  }

  lemma BlanksRead(blanks: string, rest: string)
    requires (forall k | 0 <= k < |blanks| :: IsSpace(blanks[k])) && rest != [] && !IsSpace(rest[0])
    ensures ScanInt(blanks + rest) == ScanInt(rest)
  {
    BlanksSkipped(blanks, rest);
    assert (blanks + rest)[|blanks|..] == rest == rest[0..];
    assert SpaceRun(rest) == 0;
  }

  lemma UnsignedRead(n: nat, rest: string, negative: bool)
    requires n <= INT_MAX && (rest != [] ==> !IsDigit(rest[0]))
    ensures ScanUnsigned(PrintNat(n) + rest, negative) == Match(if negative then 0 - n else n, rest)
  {
    var p := PrintNat(n);
    DigitRunOf(p, rest);
    ValueOfPrint(n);
    hide PrintNat, Value;
    assert (p + rest)[..|p|] == p && (p + rest)[|p|..] == rest;
  }

  lemma SignRead(n: nat, rest: string)
    requires n <= INT_MAX && (rest != [] ==> !IsDigit(rest[0]))
    ensures ScanInt("-" + (PrintNat(n) + rest)) == Match(0 - n, rest)
    ensures ScanInt("+" + (PrintNat(n) + rest)) == Match(n, rest)
    ensures ScanInt(PrintNat(n) + rest) == Match(n, rest)
  {
    var t := PrintNat(n) + rest;
    UnsignedRead(n, rest, false);
    UnsignedRead(n, rest, true);
    ScanPrinted(n, rest);
    hide PrintNat, ScanUnsigned;
    assert SpaceRun("-" + t) == 0 && SpaceRun("+" + t) == 0;
    assert ("-" + t)[0..] == "-" + t && ("+" + t)[0..] == "+" + t;
    assert ("-" + t)[1..] == t && ("+" + t)[1..] == t;
  }

  /** Blanks in front of a number are skipped, and one sign is taken; text that is not a number reads as 0. */
  lemma ScanSigned(blanks: string, n: nat, rest: string)
    requires (forall k | 0 <= k < |blanks| :: IsSpace(blanks[k])) && n <= INT_MAX && (rest != [] ==> !IsDigit(rest[0]))
    ensures ScanInt(blanks + (PrintNat(n) + rest)) == Match(n, rest)
    ensures ScanInt(blanks + ("+" + (PrintNat(n) + rest))) == Match(n, rest)
    ensures ScanInt(blanks + ("-" + (PrintNat(n) + rest))) == Match(0 - n, rest)
    ensures Atoi(blanks + ("-" + (PrintNat(n) + rest))) == 0 - n
  {
    hide PrintNat;
    SignRead(n, rest);
    BlanksRead(blanks, PrintNat(n) + rest);
    BlanksRead(blanks, "+" + (PrintNat(n) + rest));
    BlanksRead(blanks, "-" + (PrintNat(n) + rest));
  }

  lemma NoNumber(s: string)
    requires s == [] || (!IsSpace(s[0]) && !IsDigit(s[0]) && s[0] != '-' && s[0] != '+')
    ensures ScanInt(s) == NoMatch && Atoi(s) == 0
  {
    assert s[0..] == s;
  }

  /** Printing an int and reading it back, negative ones included. */
  lemma IntRoundTrip(i: int, rest: string)
    requires -INT_MAX <= i <= INT_MAX && (rest != [] ==> !IsDigit(rest[0]))
    ensures ScanInt(PrintInt(i) + rest) == Match(i, rest)
    ensures i < 0 ==> PrintInt(i) == "-" + PrintNat(-i)
  {
    hide PrintNat, ScanInt;
    if i < 0 {
      SignRead(-i, rest);
      assert PrintInt(i) + rest == "-" + (PrintNat(-i) + rest);
    } else {
      SignRead(i, rest);
    }
  }
}
