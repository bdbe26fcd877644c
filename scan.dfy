/** The pieces of C's `sscanf` that the argument parsers use: `%d`, `%u`,
    `%Ns` and literal characters.  Each directive consumes a prefix of the
    remaining input and either converts it or stops the scan. */
module Scan {
  import opened Common

  /** Outcome of one directive: it stopped the scan, or it produced a value
      and left `rest` unread. */
  datatype Scanned<T> = Fail | Got(value: T, rest: string)

  /** `isspace` in the C locale. */
  predicate IsSpace(c: char)
  {
    c == ' ' || c == '\t' || c == '\n' || c == '\U{0B}' || c == '\U{0C}' || c == '\r'
  }

  predicate IsDigit(c: char)
  {
    '0' <= c <= '9'
  }

  predicate AllDigits(s: string)
  {
    forall k :: 0 <= k < |s| ==> IsDigit(s[k])
  }

  function DigitValue(c: char): (d: nat)
    requires IsDigit(c)
    ensures d < 10
  {
    c as int - '0' as int
  }

  /** Length of the longest prefix of s made of digits. */
  function CountDigits(s: string): (n: nat)
    ensures n <= |s| && AllDigits(s[..n])
    ensures n == |s| || !IsDigit(s[n])
  {
    if s == [] || !IsDigit(s[0]) then 0 else 1 + CountDigits(s[1..])
  }

  /** Length of the longest prefix of s without white space. */
  function CountNonSpace(s: string): (n: nat)
    ensures n <= |s|
    ensures forall k :: 0 <= k < n ==> !IsSpace(s[k])
    ensures n == |s| || IsSpace(s[n])
  {
    if s == [] || IsSpace(s[0]) then 0 else 1 + CountNonSpace(s[1..])
  }

  /** What every conversion but `%c` does first: drop leading white space. */
  function SkipSpace(s: string): (r: string)
    ensures |r| <= |s| && r == s[|s| - |r|..]
    ensures forall k :: 0 <= k < |s| - |r| ==> IsSpace(s[k])
    ensures r == [] || !IsSpace(r[0])
  {
    if s != [] && IsSpace(s[0]) then SkipSpace(s[1..]) else s
  }

  /** The number a string of decimal digits denotes. */
  function Decimal(d: string): nat
    requires AllDigits(d)
  {
    if d == [] then 0 else Decimal(d[..|d| - 1]) * 10 + DigitValue(d[|d| - 1])
  }

  /** The decimal numeral of n, without leading zeros. */
  function NatToString(n: nat): (s: string)
    ensures |s| >= 1
  {
    if n < 10 then ['0' + n as char]
    else NatToString(n / 10) + ['0' + (n % 10) as char]
  }

  /** At least one digit, read as a decimal number. */
  function ScanDigits(u: string): (r: Scanned<nat>)
    ensures r.Got? <==> u != [] && IsDigit(u[0])
    ensures r.Got? ==> |r.rest| < |u| && (r.rest == [] || !IsDigit(r.rest[0]))
  {
    var n := CountDigits(u);
    if n == 0 then Fail else Got(Decimal(u[..n]), u[n..])
  }

  /** The shared front end of `%d` and `%u` (`strtol`/`strtoul` in base 10):
      white space, an optional sign, then at least one digit. */
  function ScanSigned(s: string): (r: Scanned<int>)
    ensures r.Got? ==> |r.rest| < |s| && (r.rest == [] || !IsDigit(r.rest[0]))
  {
    var t := SkipSpace(s);
    if t != [] && t[0] == '-' then
      match ScanDigits(t[1..])
      case Fail => Fail
      case Got(v, rest) => Got(-(v as int), rest)
    else if t != [] && t[0] == '+' then
      match ScanDigits(t[1..])
      case Fail => Fail
      case Got(v, rest) => Got(v, rest)
    else
      match ScanDigits(t)
      case Fail => Fail
      case Got(v, rest) => Got(v, rest)
  }

  /** C's conversion of a value to a 32-bit `int`: two's complement
      wrap-around. */
  function ToInt32(x: int): (r: int)
    ensures -0x8000_0000 <= r < 0x8000_0000
    ensures -0x8000_0000 <= x < 0x8000_0000 ==> r == x
    ensures (r - x) % 0x1_0000_0000 == 0
  {
    (x + 0x8000_0000) % 0x1_0000_0000 - 0x8000_0000
  }

  /** `%d` into an `int`. */
  function ScanInt(s: string): (r: Scanned<int>)
    ensures r.Got? <==> ScanSigned(s).Got?
    ensures r.Got? ==> r.rest == ScanSigned(s).rest && -0x8000_0000 <= r.value < 0x8000_0000
  {
    match ScanSigned(s)
    case Fail => Fail
    case Got(v, rest) => Got(ToInt32(v), rest)
  }

  /** `%u` into an `unsigned int`: a negative number wraps around. */
  function ScanUint(s: string): (r: Scanned<u32>)
    ensures r.Got? <==> ScanSigned(s).Got?
    ensures r.Got? ==> r.rest == ScanSigned(s).rest && (r.value - ScanSigned(s).value) % U32_LIMIT == 0
  {
    match ScanSigned(s)
    case Fail => Fail
    case Got(v, rest) => Got(Wrap32(v), rest)
  }

  /** `%Ns` with field width n: white space, then 1 to n characters that are
      not white space.  The destination receives them plus a NUL, n + 1
      bytes in the worst case. */
  function ScanWord(s: string, width: nat): (r: Scanned<string>)
    requires width > 0
    ensures r.Got? ==> 1 <= |r.value| <= width
    ensures r.Got? ==> forall k :: 0 <= k < |r.value| ==> !IsSpace(r.value[k])
    ensures r.Got? ==> |r.value| + |r.rest| <= |s|
    ensures r.Fail? <==> forall k :: 0 <= k < |s| ==> IsSpace(s[k])
  {
    var t := SkipSpace(s);
    var n := Min(width, CountNonSpace(t));
    if n == 0 then Fail else Got(t[..n], t[n..])
  }

  /** An ordinary character of the format: it must be the next input
      character (no white space is skipped). */
  function ScanChar(s: string, c: char): (r: Scanned<()>)
    ensures r.Got? <==> s != [] && s[0] == c
    ensures r.Got? ==> r.rest == s[1..]
  {
    if s != [] && s[0] == c then Got((), s[1..]) else Fail
  }

  /** Decimal inverts NatToString. */
  lemma {:induction false} DecimalOfNatToString(n: nat)
    ensures AllDigits(NatToString(n))
    ensures Decimal(NatToString(n)) == n
  {
    if n >= 10 {
      DecimalOfNatToString(n / 10);
      var s := NatToString(n);
      assert s[..|s| - 1] == NatToString(n / 10);
    }
  }

  /** A digit string followed by a non-digit: CountDigits finds exactly it. */
  lemma {:induction false} CountDigitsOfNumeral(d: string, rest: string)
    requires AllDigits(d)
    requires rest == [] || !IsDigit(rest[0])
    ensures CountDigits(d + rest) == |d|
  {
    if d != [] {
      assert (d + rest)[1..] == d[1..] + rest;
      CountDigitsOfNumeral(d[1..], rest);
    }
  }

  /** ScanDigits reads a whole digit string that a non-digit follows. */
  lemma ScanDigitsOfNumeral(d: string, rest: string)
    requires d != [] && AllDigits(d)
    requires rest == [] || !IsDigit(rest[0])
    ensures ScanDigits(d + rest) == Got(Decimal(d), rest)
  {
    var s := d + rest;
    CountDigitsOfNumeral(d, rest);
    assert s[..|d|] == d;
    assert s[|d|..] == rest;
  }

  /** The number front end reads back what NatToString writes. */
  lemma ScanSignedOfNumeral(n: nat, rest: string)
    requires rest == [] || !IsDigit(rest[0])
    ensures ScanSigned(NatToString(n) + rest) == Got(n, rest)
  {
    var d := NatToString(n);
    var s := d + rest;
    DecimalOfNatToString(n);
    assert s[0] == d[0];
    var c := s[0];
    assert IsDigit(c);
    assert !IsSpace(c);
    assert SkipSpace(s) == s;
    ScanDigitsOfNumeral(d, rest);
  }

  /** `%u` reads back what NatToString writes. */
  lemma ScanUintOfNumeral(n: u32, rest: string)
    requires rest == [] || !IsDigit(rest[0])
    ensures ScanUint(NatToString(n) + rest) == Got(n, rest)
  {
    ScanSignedOfNumeral(n, rest);
  }

  /** `%d` reads back what NatToString writes, for values that fit an `int`. */
  lemma ScanIntOfNumeral(n: nat, rest: string)
    requires n < 0x8000_0000
    requires rest == [] || !IsDigit(rest[0])
    ensures ScanInt(NatToString(n) + rest) == Got(n, rest)
  {
    ScanSignedOfNumeral(n, rest);
  }

  /** A non-empty run of non-blank characters at the end of the input is
      read whole by `%Ns` when it is at most n characters long. */
  lemma {:induction false} CountNonSpaceOfWord(m: string)
    requires forall k :: 0 <= k < |m| ==> !IsSpace(m[k])
    ensures CountNonSpace(m) == |m|
  {
    if m != [] {
      CountNonSpaceOfWord(m[1..]);
    }
  }

  /** A non-blank word is read up to the field width: a longer word is
      cut after `width` characters and the rest stays in the input. */
  lemma ScanWordCut(m: string, width: nat)
    requires width > 0 && 1 <= |m|
    requires forall k :: 0 <= k < |m| ==> !IsSpace(m[k])
    ensures ScanWord(m, width) == Got(m[..Min(width, |m|)], m[Min(width, |m|)..])
  {
    assert !IsSpace(m[0]);
    assert SkipSpace(m) == m;
    CountNonSpaceOfWord(m);
  }

  lemma ScanWordWhole(m: string, width: nat)
    requires 1 <= |m| <= width
    requires forall k :: 0 <= k < |m| ==> !IsSpace(m[k])
    ensures ScanWord(m, width) == Got(m, [])
  {
    ScanWordCut(m, width);
    assert m[..|m|] == m;
  }
}
