/** Numbers and fields of text files: printing with printf formats, splitting a
    line into tokens, and reading numbers back with atol() and strtoul(). */
module Numerals {
  import opened Common

  const LONG_MAX := 0x7FFF_FFFF
  const ULONG_MAX := 0xFFFF_FFFF

  // ---------- Digits ----------

  type Base = b: nat | b == 10 || b == 16 witness 10

  function DigitChar(d: nat): char
    requires d < 16
  {
    if d < 10 then '0' + d as char else 'a' + (d - 10) as char
  }

  /** The value of a digit of this base; upper case letters count as well. */
  function DigitValue(c: char): nat {
    if '0' <= c <= '9' then (c - '0') as nat
    else if 'a' <= c <= 'f' then (c - 'a') as nat + 10
    else if 'A' <= c <= 'F' then (c - 'A') as nat + 10
    else 16
  }

  predicate IsDigitOf(c: char, base: Base) {
    DigitValue(c) < base
  }

  predicate AreDigits(s: string, base: Base) {
    forall c | c in s :: IsDigitOf(c, base)
  }

  function Digits(n: nat, base: Base): string {
    if n < base then [DigitChar(n)] else Digits(n / base, base) + [DigitChar(n % base)]
  }

  function ValueOf(s: string, base: Base): nat {
    if s == "" then 0 else ValueOf(s[..|s| - 1], base) * base + DigitValue(s[|s| - 1])
  }

  lemma DigitOfChar(d: nat)
    requires d < 16
    ensures DigitValue(DigitChar(d)) == d && !IsSpace(DigitChar(d)) && DigitChar(d) != '-' && DigitChar(d) != '+'
    ensures DigitChar(d) != 'x' && DigitChar(d) != 'X'
  {}

  /** Reading printed digits gives the number back. */
  lemma {:induction false} ValueOfDigits(n: nat, base: Base)
    ensures Digits(n, base) != "" && ValueOf(Digits(n, base), base) == n && AreDigits(Digits(n, base), base)
  {
    if n < base {
      DigitOfChar(n);
      assert Digits(n, base)[..0] == "";
    } else {
      DigitOfChar(n % base);
      ValueOfDigits(n / base, base);
      var s := Digits(n, base);
      assert s[..|s| - 1] == Digits(n / base, base);
    }
  }

  function Times(c: char, n: int): (s: string)
    ensures |s| == if n > 0 then n else 0
    ensures forall i | 0 <= i < |s| :: s[i] == c
  {
    if n <= 0 then "" else Times(c, n - 1) + [c]
  }

  lemma {:induction false} LeadingZeros(zeros: string, s: string, base: Base)
    requires forall i | 0 <= i < |zeros| :: zeros[i] == '0'
    ensures ValueOf(zeros + s, base) == ValueOf(s, base)
    decreases |s|, |zeros|
  {
    if s == "" {
      assert zeros + "" == zeros;
      if zeros != "" {
        var fewer := zeros[..|zeros| - 1];
        LeadingZeros(fewer, "", base);
        assert fewer + "" == fewer;
      }
    } else {
      LeadingZeros(zeros, s[..|s| - 1], base);
      assert (zeros + s)[..|zeros + s| - 1] == zeros + s[..|s| - 1];
    }
  }

  function Power(base: Base, k: nat): nat {
    if k == 0 then 1 else base * Power(base, k - 1)
  }

  /** A number below the k-th power has at most k digits, and the other way round. */
  lemma {:induction false} LengthOfDigits(n: nat, base: Base, k: nat)
    requires k >= 1
    ensures |Digits(n, base)| <= k <==> n < Power(base, k)
  {
    if k == 1 {
      assert Power(base, 1) == base * Power(base, 0) == base;
      if n >= base {
        ValueOfDigits(n / base, base);
      }
    } else if n >= base {
      LengthOfDigits(n / base, base, k - 1);
      assert n == (n / base) * base + n % base;
      QuotientBelow(n, base, Power(base, k - 1));
    } else {
      PowerIsLarge(base, k);
    }
  }

  lemma QuotientBelow(n: nat, base: Base, bound: nat)
    ensures n / base < bound <==> n < base * bound
  {}

  lemma {:induction false} PowerIsLarge(base: Base, k: nat)
    requires k >= 1
    ensures Power(base, k) >= base
  {
    if k > 1 {
      PowerIsLarge(base, k - 1);
    } else {
      assert Power(base, 1) == base * Power(base, 0);
    }
  }

  // ---------- Formats ----------

  /** "%d" */
  function Decimal(n: int): string {
    if n < 0 then "-" + Digits(-n, 10) else Digits(n, 10)
  }

  /** "%x" */
  function Hex(n: nat): string { Digits(n, 16) }

  /** "%08x" */
  function Hex8(n: nat): string { Times('0', 8 - |Hex(n)|) + Hex(n) }

  /** "%5d" and the like */
  function PadLeft(s: string, width: nat): string { Times(' ', width - |s|) + s }

  /** "%-5d" and the like */
  function PadRight(s: string, width: nat): string { s + Times(' ', width - |s|) }

  lemma HexHasAtMostEightDigits(n: nat)
    requires n <= ULONG_MAX
    ensures |Hex(n)| <= 8 && |Hex8(n)| == 8
  {
    LengthOfDigits(n, 16, 8);
    assert Power(16, 4) == 0x1_0000;
    assert Power(16, 8) == 0x1_0000_0000;
  }

  /** Exactly the numbers from -99 to 999 have at most three characters. */
  lemma ShortDecimals(n: int)
    ensures |Decimal(n)| <= 3 <==> -99 <= n <= 999
  {
    assert Power(10, 2) == 100 && Power(10, 3) == 1000;
    if n < 0 {
      LengthOfDigits(-n, 10, 2);
    } else {
      LengthOfDigits(n, 10, 3);
    }
  }

  // ---------- Reading numbers ----------

  /** The number of leading digits. */
  function DigitRun(s: string, base: Base): (n: nat)
    ensures n <= |s|
  {
    if s == "" || !IsDigitOf(s[0], base) then 0 else 1 + DigitRun(s[1..], base)
  }

  function Clamped(n: int, low: int, high: int): int {
    if n < low then low else if n > high then high else n
  }

  function SkipSpaces(s: string): string {
    if s != "" && IsSpace(s[0]) then SkipSpaces(s[1..]) else s
  }

  /** atol(): blanks, a sign, digits up to the first other character. */
  function Atol(text: string): (value: int)
    ensures -LONG_MAX - 1 <= value <= LONG_MAX
  {
    var s := SkipSpaces(text);
    var negative := s != "" && s[0] == '-';
    var t := if s != "" && (s[0] == '-' || s[0] == '+') then s[1..] else s;
    var n: int := ValueOf(t[..DigitRun(t, 10)], 10);
    Clamped(if negative then -n else n, -LONG_MAX - 1, LONG_MAX)
  }

  /** strtoul() for base 16; a sign is not part of the model. */
  function Strtoul(text: string): (value: int)
    ensures 0 <= value <= ULONG_MAX
  {
    var s := SkipSpaces(text);
    var t := if |s| >= 2 && s[0] == '0' && (s[1] == 'x' || s[1] == 'X') then s[2..] else s;
    Clamped(ValueOf(t[..DigitRun(t, 16)], 16), 0, ULONG_MAX)
  }

  lemma {:induction false} AllDigits(s: string, base: Base)
    requires AreDigits(s, base)
    ensures DigitRun(s, base) == |s|
  {
    if s != "" {
      AllDigits(s[1..], base);
    }
  }

  lemma NoSpaceFirst(s: string)
    requires s != "" && !IsSpace(s[0])
    ensures SkipSpaces(s) == s
  {}

  lemma DigitsAreNoSpace(s: string, base: Base)
    requires AreDigits(s, base)
    ensures forall c | c in s :: !IsSpace(c) && c != '-' && c != '+' && c != 'x' && c != 'X'
  {
    forall c | c in s ensures !IsSpace(c) && c != '-' && c != '+' && c != 'x' && c != 'X' {
      assert IsDigitOf(c, base);
    }
  }

  /** atol() reads what "%d" has printed. */
  lemma AtolOfDecimal(n: int)
    requires -LONG_MAX - 1 <= n <= LONG_MAX
    ensures Atol(Decimal(n)) == n && Solid(Decimal(n))
  {
    var d := Digits(if n < 0 then -n else n, 10);
    ValueOfDigits(if n < 0 then -n else n, 10);
    DigitsAreNoSpace(d, 10);
    AllDigits(d, 10);
    NoSpaceFirst(Decimal(n));
    assert d[..|d|] == d;
    assert d[0] in d;
    if n < 0 {
      assert Decimal(n)[1..] == d;
    }
  }

  lemma StrtoulOfDigits(s: string)
    requires s != "" && AreDigits(s, 16) && ValueOf(s, 16) <= ULONG_MAX
    ensures Strtoul(s) == ValueOf(s, 16) && Solid(s)
  {
    hide ValueOf, IsDigitOf;
    DigitsAreNoSpace(s, 16);
    AllDigits(s, 16);
    assert s[0] in s;
    NoSpaceFirst(s);
    assert s[..|s|] == s;
    assert |s| >= 2 ==> s[1] in s;
  }

  /** strtoul() reads what "%x" has printed, with or without leading zeros. */
  lemma StrtoulOfHex(n: nat, zeros: string)
    requires n <= ULONG_MAX && forall i | 0 <= i < |zeros| :: zeros[i] == '0'
    ensures Strtoul(zeros + Hex(n)) == n && Solid(zeros + Hex(n))
  {
    hide Strtoul, ValueOf, Digits, Solid;
    var d := Hex(n);
    ValueOfDigits(n, 16);
    forall c | c in zeros + d ensures IsDigitOf(c, 16) {
      assert c in zeros || c in d;
    }
    LeadingZeros(zeros, d, 16);
    StrtoulOfDigits(zeros + d);
  }

  // ---------- Tokens ----------

  predicate IsBlank(c: char) { c == ' ' || c == '\t' }

  /** A text without white space that is not empty. */
  predicate Solid(s: string) {
    s != "" && forall c | c in s :: !IsSpace(c)
  }

  function WordEnd(s: string): (n: nat)
    ensures n <= |s| && (forall i | 0 <= i < n :: !IsBlank(s[i])) && (n < |s| ==> IsBlank(s[n]))
  {
    if s == "" || IsBlank(s[0]) then 0 else 1 + WordEnd(s[1..])
  }

  /** The tokens between blanks and tabs. */
  function Tokens(s: string): seq<string>
    decreases |s|
  {
    if s == "" then []
    else if IsBlank(s[0]) then Tokens(s[1..])
    else [s[..WordEnd(s)]] + Tokens(s[WordEnd(s)..])
  }

  lemma {:induction false} WordEndIs(s: string, n: nat)
    requires n <= |s| && (forall i | 0 <= i < n :: !IsBlank(s[i])) && (n < |s| ==> IsBlank(s[n]))
    ensures WordEnd(s) == n
  {
    if n > 0 {
      WordEndIs(s[1..], n - 1);
    }
  }

  /** A blank separates the tokens before it from those behind it. */
  lemma {:induction false} TokensOfParts(a: string, b: string)
    ensures Tokens(a + " " + b) == Tokens(a) + Tokens(b)
    decreases |a|
  {
    var s := a + " " + b;
    if a == "" {
      assert s[1..] == b;
    } else if IsBlank(a[0]) {
      assert s[1..] == a[1..] + " " + b;
      TokensOfParts(a[1..], b);
    } else {
      var n := WordEnd(a);
      WordEndIs(s, n);
      assert s[..n] == a[..n] && s[n..] == a[n..] + " " + b;
      TokensOfParts(a[n..], b);
    }
  }

  lemma TokensOfSolid(s: string)
    requires Solid(s)
    ensures Tokens(s) == [s]
  {
    assert forall i | 0 <= i < |s| :: s[i] in s;
    WordEndIs(s, |s|);
    assert s[..|s|] == s && s[|s|..] == "";
  }

  lemma {:induction false} TokensOfBlanks(n: int)
    ensures Tokens(Times(' ', n)) == []
  {
    if n > 0 {
      TokensOfBlanks(n - 1);
      assert Times(' ', n) == Times(' ', n - 1) + " " + "";
      TokensOfParts(Times(' ', n - 1), "");
    }
  }

  /** Padding does not change the tokens. */
  lemma {:induction false} TokensOfPadded(s: string, width: nat)
    ensures Tokens(PadRight(s, width)) == Tokens(s)
    ensures Tokens(PadLeft(s, width)) == Tokens(s)
  {
    var n := width - |s|;
    if n > 0 {
      PeelBlank(n);
      TokensOfBlanks(n - 1);
      assert PadRight(s, width) == s + " " + Times(' ', n - 1);
      TokensOfParts(s, Times(' ', n - 1));
      assert PadLeft(s, width) == Times(' ', n - 1) + " " + s;
      TokensOfParts(Times(' ', n - 1), s);
    } else {
      assert PadRight(s, width) == s && PadLeft(s, width) == s;
    }
  }

  lemma PeelBlank(n: int)
    requires n > 0
    ensures Times(' ', n) == Times(' ', n - 1) + " " == " " + Times(' ', n - 1)
  {}
}
