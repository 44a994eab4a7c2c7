/**
  Decimal text as the C library produces and consumes it: `sprintf("%ld")`
  renders an integer, `strtol(s, NULL, 10)` and `atoi` read one back.
 */
module Decimal {

  const LONG_MIN: int := -0x8000_0000_0000_0000
  const LONG_MAX: int := 0x7FFF_FFFF_FFFF_FFFF

  /** The C type `long` on the LP64 platforms the launcher targets. */
  predicate IsLong(x: int) {
    LONG_MIN <= x <= LONG_MAX
  }

  predicate IsDigit(c: char) {
    '0' <= c <= '9'
  }

  predicate AllDigits(s: string) {
    forall i | 0 <= i < |s| :: IsDigit(s[i])
  }

  /** The characters `isspace` accepts in the C locale. */
  predicate IsSpace(c: char) {
    c == ' ' || c == '\t' || c == '\n' || c == '\r' || c == '\U{0B}' || c == '\U{0C}'
  }

  function DigitChar(d: nat): (c: char)
    requires d < 10
    ensures IsDigit(c)
  {
    ('0' as int + d) as char
  }

  /** Value of a digit string, most significant digit first. */
  function ValueOf(s: string): nat
    requires AllDigits(s)
  {
    if s == [] then 0 else 10 * ValueOf(s[..|s| - 1]) + (s[|s| - 1] as int - '0' as int)
  }

  /** Appending a digit shifts the value one decimal place. */
  lemma ValueOfSnoc(s: string, c: char, t: string)
    requires AllDigits(s) && IsDigit(c) && t == s + [c]
    ensures AllDigits(t)
    ensures ValueOf(t) == 10 * ValueOf(s) + (c as int - '0' as int)
  {
    assert t[..|s|] == s;
  }

  /** A digit string with no superfluous leading zero. */
  predicate Canonical(s: string) {
    |s| >= 1 && AllDigits(s) && (s[0] != '0' || |s| == 1)
  }

  /** `s` is the text `%ld` produces for `x`: an optional minus sign, then canonical digits. */
  predicate IsDecimalOf(s: string, x: int) {
    if x >= 0 then Canonical(s) && ValueOf(s) == x
    else |s| >= 2 && s[0] == '-' && Canonical(s[1..]) && ValueOf(s[1..]) == -x
  }

  /** Digits of a natural number. */
  function FromNat(n: nat): (s: string)
    ensures Canonical(s)
    ensures ValueOf(s) == n
    decreases n
  {
    if n < 10 then [DigitChar(n)]
    else
      var prefix := FromNat(n / 10);
      var s := prefix + [DigitChar(n % 10)];
      assert s[..|s| - 1] == prefix;
      s
  }

  /** The text `sprintf(buf, "%ld", x)` writes. */
  function FromInt(x: int): (s: string)
    ensures IsDecimalOf(s, x)
  {
    if x >= 0 then FromNat(x)
    else
      var s := "-" + FromNat(-x);
      assert s[1..] == FromNat(-x);
      s
  }

  /** Longest prefix of `s` made of digits. */
  function LeadingDigits(s: string): (d: string)
    ensures AllDigits(d)
    ensures |d| <= |s| && d == s[..|d|]
  {
    if |s| > 0 && IsDigit(s[0]) then [s[0]] + LeadingDigits(s[1..]) else []
  }

  function SkipSpace(s: string): string {
    if |s| > 0 && IsSpace(s[0]) then SkipSpace(s[1..]) else s
  }

  /**
    Unclamped value of the integer text at the start of `s`: leading white
    space, an optional sign, then as many digits as follow (no digits read as 0).
   */
  function LeadingInt(s: string): int {
    var t := SkipSpace(s);
    if |t| > 0 && t[0] == '-' then 0 - ValueOf(LeadingDigits(t[1..]))
    else if |t| > 0 && t[0] == '+' then ValueOf(LeadingDigits(t[1..]))
    else ValueOf(LeadingDigits(t))
  }

  /** `strtol(s, NULL, 10)`: the leading integer, saturated to the range of `long`. */
  function StrToL(s: string): (r: int)
    ensures IsLong(r)
    ensures IsLong(LeadingInt(s)) ==> r == LeadingInt(s)
    ensures LeadingInt(s) > LONG_MAX ==> r == LONG_MAX
    ensures LeadingInt(s) < LONG_MIN ==> r == LONG_MIN
  {
    var v := LeadingInt(s);
    if v < LONG_MIN then LONG_MIN else if v > LONG_MAX then LONG_MAX else v
  }

  lemma {:induction false} LeadingDigitsOfDigits(s: string)
    requires AllDigits(s)
    ensures LeadingDigits(s) == s
    decreases |s|
  {
    if |s| > 0 {
      LeadingDigitsOfDigits(s[1..]);
      assert [s[0]] + s[1..] == s;
    }
  }

  /** Reading back what `%ld` printed yields the printed value. */
  lemma LeadingIntFromInt(x: int)
    ensures LeadingInt(FromInt(x)) == x
  {
    var s := FromInt(x);
    if x >= 0 {
      LeadingDigitsOfDigits(s);
    } else {
      LeadingDigitsOfDigits(s[1..]);
    }
  }

  /** `strtol` inverts `%ld` on every `long`. */
  lemma StrToLFromInt(x: int)
    requires IsLong(x)
    ensures StrToL(FromInt(x)) == x
  {
    LeadingIntFromInt(x);
  }

  /** The value of a canonical digit string determines the string. */
  lemma {:induction false} CanonicalUnique(s: string, t: string)
    requires Canonical(s) && Canonical(t) && ValueOf(s) == ValueOf(t)
    ensures s == t
    decreases |s|
  {
    if |s| == 1 || |t| == 1 {
      ShortCanonical(s, t);
    } else {
      var s', t' := s[..|s| - 1], t[..|t| - 1];
      assert Canonical(s') && Canonical(t');
      assert ValueOf(s') == ValueOf(t');
      CanonicalUnique(s', t');
      assert s == s' + [s[|s| - 1]] && t == t' + [t[|t| - 1]];
    }
  }

  lemma ShortCanonical(s: string, t: string)
    requires Canonical(s) && Canonical(t) && ValueOf(s) == ValueOf(t)
    requires |s| == 1 || |t| == 1
    ensures s == t
  {
    if |s| == 1 && |t| > 1 {
      LongCanonicalIsLarge(t);
    } else if |t| == 1 && |s| > 1 {
      LongCanonicalIsLarge(s);
    } else {
      assert ValueOf(s) == s[0] as int - '0' as int;
    }
  }

  lemma {:induction false} LongCanonicalIsLarge(s: string)
    requires Canonical(s) && |s| > 1
    ensures ValueOf(s) >= 10
    decreases |s|
  {
    var p := s[..|s| - 1];
    assert Canonical(p);
    if |p| > 1 {
      LongCanonicalIsLarge(p);
    } else {
      assert ValueOf(p) == p[0] as int - '0' as int;
    }
  }

  /** `%ld` text is unique: any decimal rendering of `x` is the one `FromInt` gives. */
  lemma DecimalUnique(s: string, x: int)
    requires IsDecimalOf(s, x)
    ensures s == FromInt(x)
  {
    if x >= 0 {
      CanonicalUnique(s, FromNat(x));
    } else {
      CanonicalUnique(s[1..], FromNat(-x));
      assert s == [s[0]] + s[1..];
    }
  }
}
