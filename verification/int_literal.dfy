/** Integer literals (src/banjo/parser/expr_parser.cpp, parse_int_literal and validate_integer_range). */
module IntLiterals {

  const MAX_UINT64: nat := 0xFFFF_FFFF_FFFF_FFFF

  predicate IsHexDigit(c: char) {
    '0' <= c <= '9' || 'a' <= c <= 'f' || 'A' <= c <= 'F'
  }

  function HexDigitValue(c: char): (v: nat)
    requires IsHexDigit(c)
    ensures v < 16
  {
    if '0' <= c <= '9' then c as int - '0' as int
    else if 'a' <= c <= 'f' then 10 + c as int - 'a' as int
    else 10 + c as int - 'A' as int
  }

  /** All characters are digits of the base. */
  predicate Digits(s: string, base: nat) {
    forall i | 0 <= i < |s| :: IsHexDigit(s[i]) && HexDigitValue(s[i]) < base
  }

  function Pow(base: nat, n: nat): nat {
    if n == 0 then 1 else base * Pow(base, n - 1)
  }

  /** The number a string of digits stands for. */
  function NumberOf(s: string, base: nat): nat
    requires Digits(s, base)
  {
    if s == [] then 0 else NumberOf(s[..|s| - 1], base) * base + HexDigitValue(s[|s| - 1])
  }

  // ---- Positional notation ----

  lemma {:induction false} NumberBelowPow(s: string, base: nat)
    requires Digits(s, base)
    ensures NumberOf(s, base) < Pow(base, |s|)
  {
    if s != [] {
      NumberBelowPow(s[..|s| - 1], base);
      BelowNext(NumberOf(s[..|s| - 1], base), Pow(base, |s| - 1), base, HexDigitValue(s[|s| - 1]));
    }
  }

  lemma BelowNext(n: nat, p: nat, base: nat, d: nat)
    requires n < p && d < base
    ensures n * base + d < base * p
  {
    assert (n + 1) * base <= p * base;
  }

  /** The first digit weighs as much as its place says. */
  lemma {:induction false} FirstDigit(s: string, base: nat)
    requires s != [] && Digits(s, base)
    ensures Digits(s[..1], base) && Digits(s[1..], base)
    ensures NumberOf(s, base) == HexDigitValue(s[0]) * Pow(base, |s| - 1) + NumberOf(s[1..], base)
  {
    if |s| == 1 {
      assert s[..0] == [];
    } else {
      var n := |s| - 1;
      FirstDigit(s[..n], base);
      assert s[..n][1..] == s[1..][..n - 1];
      Distribute(HexDigitValue(s[0]), Pow(base, n - 1), NumberOf(s[..n][1..], base), base);
    }
  }

  lemma Distribute(d: nat, p: nat, r: nat, base: nat)
    ensures (d * p + r) * base == d * (base * p) + r * base
  {
  }

  lemma {:induction false} PowGrows(base: nat, m: nat, n: nat)
    requires base > 0 && m <= n
    ensures 0 < Pow(base, m) <= Pow(base, n)
    decreases n
  {
    if m < n {
      PowGrows(base, m, n - 1);
      assert Pow(base, n - 1) <= base * Pow(base, n - 1);
    } else if n > 0 {
      PowGrows(base, m - 1, n - 1);
    }
  }

  /** Of two numbers with the same number of digits, the one with the smaller first different digit is smaller. */
  lemma {:induction false} FirstDifference(s: string, t: string, base: nat, i: nat)
    requires Digits(s, base) && Digits(t, base) && |s| == |t| && i <= |s|
    requires forall k | 0 <= k < i :: HexDigitValue(s[k]) == HexDigitValue(t[k])
    ensures i == |s| ==> NumberOf(s, base) == NumberOf(t, base)
    ensures i < |s| && HexDigitValue(s[i]) < HexDigitValue(t[i]) ==> NumberOf(s, base) < NumberOf(t, base)
    decreases |s|
  {
    if s != [] {
      FirstDigit(s, base);
      FirstDigit(t, base);
      if i > 0 {
        FirstDifference(s[1..], t[1..], base, i - 1);
      } else {
        NumberBelowPow(s[1..], base);
        SmallerFirst(HexDigitValue(s[0]), HexDigitValue(t[0]), Pow(base, |s| - 1), NumberOf(s[1..], base), NumberOf(t[1..], base));
      }
    }
  }

  lemma SmallerFirst(a: nat, b: nat, p: nat, x: nat, y: nat)
    requires x < p
    ensures a < b ==> a * p + x < b * p + y
  {
    if a < b { assert (a + 1) * p <= b * p; }
  }

  /** A number without leading zeros and with more digits is larger. */
  lemma MoreDigits(s: string, t: string, base: nat)
    requires Digits(s, base) && Digits(t, base) && |s| < |t| && HexDigitValue(t[0]) > 0
    ensures NumberOf(s, base) < NumberOf(t, base)
  {
    NumberBelowPow(s, base);
    PowGrows(base, |s|, |t| - 1);
    FirstDigit(t, base);
    AtLeast(HexDigitValue(t[0]), Pow(base, |t| - 1));
  }

  lemma AtLeast(d: nat, p: nat)
    requires d > 0
    ensures p <= d * p
  {
  }

  // ---- The largest literals ----

  function Repeat(c: char, n: nat): (s: string)
    ensures |s| == n && forall i :: 0 <= i < n ==> s[i] == c
  {
    if n == 0 then [] else Repeat(c, n - 1) + [c]
  }

  predicate IsBase(base: nat) {
    base == 2 || base == 8 || base == 10 || base == 16
  }

  function MaxDigits(base: nat): (s: string)
    requires IsBase(base)
    ensures Digits(s, base) && |s| > 0 && HexDigitValue(s[0]) > 0
  {
    match base
    case 2 => Repeat('1', 64)
    case 8 => ['1'] + Repeat('7', 21)
    case 10 => "18446744073709551615"
    case _ => Repeat('F', 16)
  }

  lemma {:induction false} AllHighest(s: string, base: nat)
    requires base > 0 && Digits(s, base) && forall i | 0 <= i < |s| :: HexDigitValue(s[i]) == base - 1
    ensures NumberOf(s, base) == Pow(base, |s|) - 1
  {
    if s != [] {
      AllHighest(s[..|s| - 1], base);
      HighestNext(Pow(base, |s| - 1), base);
    }
  }

  lemma HighestNext(p: nat, base: nat)
    requires p > 0 && base > 0
    ensures (p - 1) * base + (base - 1) == base * p - 1
  {
  }

  lemma {:induction false} PowAdds(base: nat, m: nat, n: nat)
    ensures Pow(base, m + n) == Pow(base, m) * Pow(base, n)
  {
    if m > 0 {
      PowAdds(base, m - 1, n);
      Associate(base, Pow(base, m - 1), Pow(base, n));
    }
  }

  lemma Associate(a: nat, b: nat, c: nat)
    ensures a * (b * c) == (a * b) * c
  {
  }

  lemma PowerOfTwo()
    ensures Pow(2, 64) == MAX_UINT64 + 1
  {
    assert Pow(2, 4) == 16;
    PowAdds(2, 4, 4);
    PowAdds(2, 8, 8);
    PowAdds(2, 16, 16);
    PowAdds(2, 32, 32);
  }

  lemma PowerOfSixteen()
    ensures Pow(16, 16) == MAX_UINT64 + 1
  {
    assert Pow(16, 2) == 0x100;
    PowAdds(16, 2, 2);
    PowAdds(16, 4, 4);
    PowAdds(16, 8, 8);
  }

  lemma PowerOfEight()
    ensures 2 * Pow(8, 21) == MAX_UINT64 + 1
  {
    assert Pow(8, 3) == 0x200;
    PowAdds(8, 3, 3);
    PowAdds(8, 6, 6);
    PowAdds(8, 12, 6);
    PowAdds(8, 18, 3);
  }

  lemma {:induction false} NumberOfConcat(s: string, t: string, base: nat)
    requires Digits(s, base) && Digits(t, base)
    ensures Digits(s + t, base) && NumberOf(s + t, base) == NumberOf(s, base) * Pow(base, |t|) + NumberOf(t, base)
  {
    if t == [] {
      assert s + t == s;
    } else {
      var n := |t| - 1;
      NumberOfConcat(s, t[..n], base);
      assert (s + t)[..|s + t| - 1] == s + t[..n];
      Distribute(NumberOf(s, base), Pow(base, n), NumberOf(t[..n], base), base);
    }
  }

  lemma Append(s: string, c: char)
    requires Digits(s, 10) && '0' <= c <= '9'
    ensures Digits(s + [c], 10) && NumberOf(s + [c], 10) == NumberOf(s, 10) * 10 + HexDigitValue(c)
  {
    assert (s + [c])[..|s|] == s;
  }

  /** A string of five decimal digits, built up one digit at a time. */
  lemma FiveDigits(s: string, a: char, b: char, c: char, d: char, e: char)
    requires s == [a, b, c, d, e] && '0' <= a <= '9' && '0' <= b <= '9' && '0' <= c <= '9' && '0' <= d <= '9' && '0' <= e <= '9'
    ensures Digits(s, 10)
    ensures NumberOf(s, 10) == 10000 * HexDigitValue(a) + 1000 * HexDigitValue(b) + 100 * HexDigitValue(c)
                               + 10 * HexDigitValue(d) + HexDigitValue(e)
  {
    var one := [] + [a];
    var two := one + [b];
    var three := two + [c];
    var four := three + [d];
    Append([], a);
    Append(one, b);
    Append(two, c);
    Append(three, d);
    Append(four, e);
    assert s == four + [e];
  }

  lemma HundredThousand()
    ensures Pow(10, 5) == 100000 && Pow(10, 10) == 10000000000
  {
    assert Pow(10, 3) == 1000;
    PowAdds(10, 3, 2);
    PowAdds(10, 5, 5);
  }

  lemma TenDigits(s: string, t: string)
    requires |s| == 5 && |t| == 5 && Digits(s, 10) && Digits(t, 10)
    ensures Digits(s + t, 10) && NumberOf(s + t, 10) == 100000 * NumberOf(s, 10) + NumberOf(t, 10)
  {
    HundredThousand();
    NumberOfConcat(s, t, 10);
  }

  lemma FirstHalf()
    ensures Digits("1844674407", 10) && NumberOf("1844674407", 10) == 1844674407
  {
    FiveDigits("18446", '1', '8', '4', '4', '6');
    FiveDigits("74407", '7', '4', '4', '0', '7');
    TenDigits("18446", "74407");
    assert "18446" + "74407" == "1844674407";
  }

  lemma SecondHalf()
    ensures Digits("3709551615", 10) && NumberOf("3709551615", 10) == 3709551615
  {
    FiveDigits("37095", '3', '7', '0', '9', '5');
    FiveDigits("51615", '5', '1', '6', '1', '5');
    TenDigits("37095", "51615");
    assert "37095" + "51615" == "3709551615";
  }

  lemma LargestDecimal()
    ensures Digits("18446744073709551615", 10) && NumberOf("18446744073709551615", 10) == MAX_UINT64
  {
    FirstHalf();
    SecondHalf();
    HundredThousand();
    NumberOfConcat("1844674407", "3709551615", 10);
    assert "1844674407" + "3709551615" == "18446744073709551615";
  }

  /** The table of largest literals says 2^64 - 1 in every base. */
  lemma MaxDigitsAreMax(base: nat)
    requires IsBase(base)
    ensures NumberOf(MaxDigits(base), base) == MAX_UINT64
  {
    var s := MaxDigits(base);
    if base == 2 {
      AllHighest(s, 2);
      PowerOfTwo();
    } else if base == 8 {
      FirstDigit(s, 8);
      AllHighest(s[1..], 8);
      PowerOfEight();
    } else if base == 10 {
      LargestDecimal();
    } else {
      AllHighest(s, 16);
      PowerOfSixteen();
    }
  }

  // ---- The checks of the parser ----

  /** For digits without leading zeros: does the number fit 64 bits? */
  method ValidateIntegerRange(strippedValue: string, base: nat) returns (ok: bool)
    requires IsBase(base) && Digits(strippedValue, base)
    requires |strippedValue| > 1 ==> HexDigitValue(strippedValue[0]) > 0
    ensures ok <==> NumberOf(strippedValue, base) <= MAX_UINT64
  {
    var max := MaxDigits(base);
    MaxDigitsAreMax(base);
    if |strippedValue| > |max| {
      MoreDigits(max, strippedValue, base);
      return false;
    } else if |strippedValue| == |max| {
      for i := 0 to |strippedValue|
        invariant forall k | 0 <= k < i :: HexDigitValue(strippedValue[k]) == HexDigitValue(max[k])
      {
        var digit, digitMax := HexDigitValue(strippedValue[i]), HexDigitValue(max[i]);
        if digit > digitMax {
          FirstDifference(max, strippedValue, base, i);
          return false;
        } else if digit < digitMax {
          FirstDifference(strippedValue, max, base, i);
          return true;
        }
      }
      FirstDifference(strippedValue, max, base, |max|);
      return true;
    }
    MoreDigits(strippedValue, max, base);
    return true;
  }

  function BaseOf(value: string): (base: nat)
    ensures IsBase(base)
  {
    if |value| >= 2 && value[..2] == "0x" then 16
    else if |value| >= 2 && value[..2] == "0b" then 2
    else if |value| >= 2 && value[..2] == "0o" then 8
    else 10
  }

  /** The literal without the prefix that names its base. */
  function DigitsOf(value: string): string {
    if BaseOf(value) == 10 then value else value[2..]
  }

  /** A literal is good if it has digits, all of its base, and its number fits 64 bits. */
  ghost predicate IsIntLiteral(value: string) {
    var digits, base := DigitsOf(value), BaseOf(value);
    digits != [] && Digits(digits, base) && NumberOf(digits, base) <= MAX_UINT64
  }

  ghost predicate FitsBase(digits: string, base: nat) {
    digits != [] && Digits(digits, base) && NumberOf(digits, base) <= 18446744073709551615
  }

  /** The prefixes: hexadecimal, binary and octal numbers, and decimal ones without a prefix. */
  lemma PrefixTellsBase(digits: string)
    ensures IsIntLiteral("0x" + digits) <==> FitsBase(digits, 16)
    ensures IsIntLiteral("0b" + digits) <==> FitsBase(digits, 2)
    ensures IsIntLiteral("0o" + digits) <==> FitsBase(digits, 8)
    ensures !("0x" <= digits) && !("0b" <= digits) && !("0o" <= digits) ==> (IsIntLiteral(digits) <==> FitsBase(digits, 10))
  {
    assert ("0x" + digits)[2..] == digits && ("0b" + digits)[2..] == digits && ("0o" + digits)[2..] == digits;
    assert |digits| >= 2 ==> digits[..2] <= digits;
  }

  /** The digits, in both cases, in the order of their values. */
  lemma DigitsInOrder(c: char)
    ensures IsHexDigit(c) <==> c in "0123456789abcdef" || c in "0123456789ABCDEF"
    ensures forall k | 0 <= k < 16 :: HexDigitValue("0123456789abcdef"[k]) == k && HexDigitValue("0123456789ABCDEF"[k]) == k
  {
    if IsHexDigit(c) {
      var v := HexDigitValue(c);
      assert c == "0123456789abcdef"[v] || c == "0123456789ABCDEF"[v];
    }
  }

  lemma {:induction false} ZerosDoNotCount(s: string, base: nat)
    requires base > 0 && |s| > 1 && s[0] == '0'
    ensures Digits(s, base) <==> Digits(s[1..], base)
    ensures Digits(s, base) ==> NumberOf(s, base) == NumberOf(s[1..], base)
  {
    if Digits(s[1..], base) {
      forall i | 0 <= i < |s|
        ensures IsHexDigit(s[i]) && HexDigitValue(s[i]) < base
      {
        if i > 0 { assert s[i] == s[1..][i - 1]; }
      }
    }
    if Digits(s, base) { FirstDigit(s, base); }
  }

  /** Strips the prefix and leading zeros, and checks what is left. */
  method ParseIntLiteral(literal: string) returns (valid: bool)
    ensures valid <==> IsIntLiteral(literal)
  {
    var base, value := BaseOf(literal), DigitsOf(literal);
    while |value| > 1 && value[0] == '0'
      invariant value == [] <==> DigitsOf(literal) == []
      invariant Digits(value, base) <==> Digits(DigitsOf(literal), base)
      invariant Digits(value, base) ==> NumberOf(value, base) == NumberOf(DigitsOf(literal), base)
      decreases |value|
    {
      ZerosDoNotCount(value, base);
      value := value[1..];
    }
    valid := |value| > 0;
    for i := 0 to |value|
      invariant valid ==> |value| > 0 && forall k | 0 <= k < i :: IsHexDigit(value[k]) && HexDigitValue(value[k]) < base
      invariant !valid ==> value == [] || !Digits(value, base)
    {
      if !IsHexDigit(value[i]) || HexDigitValue(value[i]) >= base {
        valid := false;
        break;
      }
    }
    if valid {
      LeadingDigit(value, base);
      valid := ValidateIntegerRange(value, base);
    }
  }

  lemma LeadingDigit(value: string, base: nat)
    requires Digits(value, base) && |value| > 0
    ensures HexDigitValue(value[0]) == 0 <==> value[0] == '0'
  {
  }
}
