/** Printing and reading numbers (atoi_mod and itoa_base in lib/vsprintf.c). */
module Numerals {
  import opened Words

  // ------------------------------------------------------------------ digits

  predicate IsDigitChar(c: char) { '0' <= c <= '9' }

  function DigitChar(d: nat, lowercase: bool): char
    requires d < 16
  {
    if lowercase then "0123456789abcdef"[d] else "0123456789ABCDEF"[d]
  }

  /** The digit a character stands for in either case; 16 for other characters. */
  function DigitValue(c: char): nat {
    if '0' <= c <= '9' then c as int - '0' as int
    else if 'a' <= c <= 'f' then c as int - 'a' as int + 10
    else if 'A' <= c <= 'F' then c as int - 'A' as int + 10
    else 16
  }

  lemma DigitOf(d: nat, lowercase: bool)
    requires d < 16
    ensures DigitValue(DigitChar(d, lowercase)) == d
    ensures d < 10 ==> DigitChar(d, lowercase) == '0' + d as char
  {
  }

  /** The number a string of digits denotes. */
  function Value(s: string, base: nat): nat {
    if s == "" then 0 else Value(s[..|s| - 1], base) * base + DigitValue(s[|s| - 1])
  }

  predicate IsNumeral(s: string, base: nat) {
    forall i :: 0 <= i < |s| ==> DigitValue(s[i]) < base
  }

  lemma MulAtLeast(k: nat, base: nat)
    requires k > 0
    ensures k * base >= base
  {
  }

  lemma SplitLess(q: nat, d: nat, q': nat, d': nat, base: nat)
    requires d < base && q < q'
    ensures q * base + d < q' * base + d'
  {
    MulAtLeast(q' - q, base);
    assert q' * base == q * base + (q' - q) * base;
  }

  lemma SplitUnique(q: nat, d: nat, q': nat, d': nat, base: nat)
    requires d < base && d' < base && q * base + d == q' * base + d'
    ensures q == q' && d == d'
  {
    if q < q' {
      SplitLess(q, d, q', d', base);
    } else if q' < q {
      SplitLess(q', d', q, d, base);
    }
  }

  lemma DivLess(n: nat, base: nat)
    requires 2 <= base
    ensures n == n / base * base + n % base && 0 <= n % base < base && 0 <= n / base <= n / 2
  {
    var q, r := n / base, n % base;
    assert n == q * base + r;
    assert q * base >= q * 2;
  }

  /** The two results of divl_rem. */
  function Quotient(n: nat, base: nat): (q: nat)
    requires 2 <= base
    ensures q <= n / 2
  {
    DivLess(n, base);
    n / base
  }

  function Remainder(n: nat, base: nat): (r: nat)
    requires 2 <= base
    ensures r < base
  {
    DivLess(n, base);
    n % base
  }

  lemma DivlIs(n: nat, base: nat)
    requires 2 <= base
    ensures n == Quotient(n, base) * base + Remainder(n, base)
  {
    DivLess(n, base);
  }

  /** The digits of n, most significant first; none for 0. */
  function Raw(n: nat, base: nat, lowercase: bool): (s: string)
    requires 2 <= base <= 16
    ensures s == "" <==> n == 0
  {
    if n == 0 then "" else
    Raw(Quotient(n, base), base, lowercase) + [DigitChar(Remainder(n, base), lowercase)]
  }

  function Digits(n: nat, base: nat, lowercase: bool): (s: string)
    requires 2 <= base <= 16
    ensures s != ""
  {
    if n == 0 then "0" else Raw(n, base, lowercase)
  }

  lemma {:induction false} RawFacts(n: nat, base: nat, lowercase: bool)
    requires 2 <= base <= 16
    ensures var s := Raw(n, base, lowercase);
            Value(s, base) == n && IsNumeral(s, base) && (n > 0 ==> s[0] != '0')
  {
    if n == 0 {
    } else {
      DivlIs(n, base);
      hide Quotient, Remainder;
      RawFacts(Quotient(n, base), base, lowercase);
      DigitOf(Remainder(n, base), lowercase);
      var s, t := Raw(n, base, lowercase), Raw(Quotient(n, base), base, lowercase);
      assert s[..|s| - 1] == t;
      if Quotient(n, base) == 0 {
        assert DigitValue('0') == 0;
      }
    }
  }

  function Pow2(k: nat): nat { if k == 0 then 1 else 2 * Pow2(k - 1) }

  lemma {:induction false} RawLength(n: nat, base: nat, lowercase: bool, k: nat)
    requires 2 <= base <= 16 && n < Pow2(k)
    ensures |Raw(n, base, lowercase)| <= k
  {
    if n == 0 {
    } else {
      hide Quotient, Remainder;
      RawLength(Quotient(n, base), base, lowercase, k - 1);
    }
  }

  lemma Pow2Is32()
    ensures Pow2(32) == TWO32
  {
    assert Pow2(8) == 0x100;
    assert Pow2(16) == 0x1_0000;
    assert Pow2(24) == 0x100_0000;
  }

  /** A 32-bit number needs at most 32 digits. */
  lemma RawFits(n: nat, base: nat, lowercase: bool)
    requires 2 <= base <= 16 && n < TWO32
    ensures |Raw(n, base, lowercase)| <= 32
  {
    Pow2Is32();
    RawLength(n, base, lowercase, 32);
  }

  // ----------------------------------------------------------------- padding

  datatype Flags = Flags(zeropad: bool, lowercase: bool)

  function Zeros(n: nat): (s: string)
    ensures |s| == n
  {
    if n == 0 then "" else Zeros(n - 1) + "0"
  }

  /** What itoa_base writes. */
  function Number(n: nat, base: nat, width: int, flags: Flags): string
    requires 2 <= base <= 16
  {
    var digits := Digits(n, base, flags.lowercase);
    var zeros := ToInt32(width - |digits|);
    (if flags.zeropad && zeros > 0 then Zeros(zeros) else "") + digits
  }

  lemma {:induction false} ValuePadded(z: nat, s: string, base: nat)
    ensures Value(Zeros(z) + s, base) == Value(s, base)
  {
    if s != "" {
      ValuePadded(z, s[..|s| - 1], base);
      var all := Zeros(z) + s;
      assert all[..|all| - 1] == Zeros(z) + s[..|s| - 1];
    } else if z > 0 {
      ValuePadded(z - 1, "", base);
      assert Zeros(z) + "" == Zeros(z) && Zeros(z - 1) + "" == Zeros(z - 1);
      assert Zeros(z)[..z - 1] == Zeros(z - 1);
    } else {
      assert Zeros(0) + "" == "";
    }
  }

  lemma {:induction false} ZerosAreNumeral(z: nat, base: nat)
    requires 2 <= base
    ensures IsNumeral(Zeros(z), base)
  {
    if z > 0 {
      ZerosAreNumeral(z - 1, base);
    }
  }

  lemma NumeralConcat(a: string, b: string, base: nat)
    requires IsNumeral(a, base) && IsNumeral(b, base)
    ensures IsNumeral(a + b, base)
  {
    hide DigitValue;
  }

  lemma DigitsMean(n: nat, base: nat, lowercase: bool)
    requires 2 <= base <= 16 && n < TWO32
    ensures var s := Digits(n, base, lowercase);
            && Value(s, base) == n && IsNumeral(s, base) && 1 <= |s| <= 32
            && (if n > 0 then s[0] != '0' else s == "0")
  {
    RawFits(n, base, lowercase);
    RawFacts(n, base, lowercase);
    assert Value("0", base) == Value("", base) * base == 0;
  }

  lemma NumberIs(n: nat, base: nat, width: int, flags: Flags)
    requires 2 <= base <= 16 && n < TWO32 && 0 <= width <= INT32_MAX
    ensures var digits := Digits(n, base, flags.lowercase);
            Number(n, base, width, flags) ==
            Zeros(if flags.zeropad && width > |digits| then width - |digits| else 0) + digits
  {
    DigitsMean(n, base, flags.lowercase);
    var digits := Digits(n, base, flags.lowercase);
    hide Digits, Value, IsNumeral;
    Int32Is(width - |digits|);
    assert "" + digits == digits;
    hide ToInt32;
  }

  /** What the printed text means: its positional value is the number, every character is a digit
      of the base, it has as many characters as the width asks for when padding and no needless
      zero in front otherwise. */
  lemma NumberMeans(n: nat, base: nat, width: int, flags: Flags)
    requires 2 <= base <= 16 && n < TWO32 && 0 <= width <= INT32_MAX
    ensures var s, d := Number(n, base, width, flags), |Digits(n, base, flags.lowercase)|;
            && Value(s, base) == n && IsNumeral(s, base)
            && 1 <= d <= 32
            && |s| == (if flags.zeropad && width > d then width else d)
            && (!flags.zeropad && n > 0 ==> s[0] != '0') && (!flags.zeropad && n == 0 ==> s == "0")
  {
    DigitsMean(n, base, flags.lowercase);
    var digits := Digits(n, base, flags.lowercase);
    var zeros := if flags.zeropad && width > |digits| then width - |digits| else 0;
    NumberIs(n, base, width, flags);
    ValuePadded(zeros, digits, base);
    ZerosAreNumeral(zeros, base);
    hide Digits, Value, Number, Zeros;
    NumeralConcat(Zeros(zeros), digits, base);
  }

  lemma DivUnique(q: nat, base: nat, d: nat)
    requires d < base && 2 <= base
    ensures Quotient(q * base + d, base) == q && Remainder(q * base + d, base) == d
  {
    var n := q * base + d;
    DivlIs(n, base);
    SplitUnique(q, d, Quotient(n, base), Remainder(n, base), base);
  }

  lemma RawStep(q: nat, d: nat, base: nat, lowercase: bool)
    requires 2 <= base <= 16 && d < base && (q > 0 || d > 0)
    ensures Raw(q * base + d, base, lowercase) == Raw(q, base, lowercase) + [DigitChar(d, lowercase)]
  {
    DivUnique(q, base, d);
    if q > 0 { MulAtLeast(q, base); }
    hide DigitChar, Quotient, Remainder;
  }

  /** s is written with the digit characters that itoa_base uses, and starts with no zero. */
  ghost predicate IsShortest(s: string, base: nat, lowercase: bool) {
    && (s != "" ==> DigitValue(s[0]) != 0)
    && forall i :: 0 <= i < |s| ==>
         DigitValue(s[i]) < base <= 16 && s[i] == DigitChar(DigitValue(s[i]), lowercase)
  }

  /** The digits printed are the only text of their value without a leading zero. */
  lemma {:induction false} ShortestNumeralUnique(s: string, base: nat, lowercase: bool)
    requires 2 <= base <= 16 && IsShortest(s, base, lowercase)
    ensures s == Raw(Value(s, base), base, lowercase)
    decreases |s|
  {
    if s != "" {
      hide DigitValue, DigitChar;
      var t, d := s[..|s| - 1], DigitValue(s[|s| - 1]);
      var v := Value(t, base);
      assert Value(s, base) == v * base + d;
      assert s == t + [DigitChar(d, lowercase)];
      ShortestNumeralUnique(t, base, lowercase);
      assert v > 0 || d > 0;
      RawStep(v, d, base, lowercase);
      hide Raw, Value, IsShortest;
    }
  }
}
