/** What each directive of lib/vsprintf.c prints, said without the functions that compute it. */
module FormatMeaning {
  import opened Words
  import opened Numerals
  import opened Vsprintf
  import opened FormatFlags

  // --------------------------------------------------------------- numbers

  /** The digit characters of a base. */
  function DigitsOf(base: nat, lowercase: bool): string
    requires base <= 16
  {
    (if lowercase then "0123456789abcdef" else "0123456789ABCDEF")[..base]
  }

  /** s is n in the base: with digits of one case, of the value n, at least as wide as a width that is padded
      to, and without a leading zero where that width does not ask for one. */
  ghost predicate IsNumberText(s: string, n: nat, base: nat, width: int, pad: bool, lowercase: bool)
    requires 2 <= base <= 16
  {
    && s != "" && Value(s, base) == n
    && (forall c :: c in s ==> c in DigitsOf(base, lowercase))
    && (pad ==> |s| >= width)
    && (!pad || |s| > width ==> |s| == 1 || s[0] != '0')
  }

  lemma DigitInSet(d: nat, base: nat, lowercase: bool)
    requires d < base <= 16
    ensures DigitChar(d, lowercase) in DigitsOf(base, lowercase)
  {
    var all := if lowercase then "0123456789abcdef" else "0123456789ABCDEF";
    assert all[..base][d] == all[d];
  }

  /** The sixteen digits, by their codes. */
  lemma DigitCodes(d: nat, lowercase: bool)
    requires d < 16
    ensures DigitChar(d, lowercase) as int ==
            if d < 10 then '0' as int + d else (if lowercase then 'a' else 'A') as int + d - 10
  {
  }

  lemma {:induction false} RawInSet(n: nat, base: nat, lowercase: bool)
    requires 2 <= base <= 16
    ensures forall c :: c in Raw(n, base, lowercase) ==> c in DigitsOf(base, lowercase)
  {
    if n == 0 {
    } else {
      RawInSet(Quotient(n, base), base, lowercase);
      DigitInSet(Remainder(n, base), base, lowercase);
      hide DigitChar, DigitsOf, Quotient, Remainder;
    }
  }

  lemma {:induction false} ZerosInSet(z: nat)
    ensures forall c :: c in Zeros(z) ==> c == '0'
  {
    if z == 0 {
    } else {
      ZerosInSet(z - 1);
    }
  }

  /** What itoa_base writes is the number as a text. */
  lemma NumberIsText(n: nat, base: nat, width: int, f: Flags)
    requires 2 <= base <= 16 && n < TWO32 && 0 <= width <= INT32_MAX
    ensures IsNumberText(Number(n, base, width, f), n, base, width, f.zeropad, f.lowercase)
  {
    NumberMeans(n, base, width, f);
    NumberIs(n, base, width, f);
    DigitsMean(n, base, f.lowercase);
    RawInSet(n, base, f.lowercase);
    var digits := Digits(n, base, f.lowercase);
    var zeros := if f.zeropad && width > |digits| then width - |digits| else 0;
    ZerosInSet(zeros);
    DigitInSet(0, base, f.lowercase);
    assert zeros == 0 ==> Zeros(zeros) + digits == digits;
    hide Value, Number, Zeros, DigitsOf;
  }

  lemma DigitBack(c: char, base: nat, lowercase: bool)
    requires base <= 16 && c in DigitsOf(base, lowercase)
    ensures DigitValue(c) < base && DigitChar(DigitValue(c), lowercase) == c
  {
    var d :| 0 <= d < base && DigitsOf(base, lowercase)[d] == c;
    assert DigitChar(d, lowercase) == c;
    DigitOf(d, lowercase);
  }

  /** A text of digits is the shortest one behind some zeros. */
  lemma {:induction false} ZerosThenDigits(s: string, base: nat, lowercase: bool) returns (k: nat)
    requires 2 <= base <= 16 && forall c :: c in s ==> c in DigitsOf(base, lowercase)
    ensures s == Zeros(k) + Raw(Value(s, base), base, lowercase)
    decreases |s|
  {
    hide *;
    if s == "" {
      k := 0;
      NoDigits(s, base, lowercase);
    } else {
      var t, c := s[..|s| - 1], s[|s| - 1];
      k := ZerosThenDigits(t, base, lowercase);
      ValueStep(t, c, base);
      assert s == t + [c];
      k := DigitMore(k, t, Value(t, base), c, base, lowercase);
    }
  }

  lemma NoDigits(s: string, base: nat, lowercase: bool)
    requires s == "" && 2 <= base <= 16
    ensures s == Zeros(0) + Raw(Value(s, base), base, lowercase)
  {
  }

  lemma ValueStep(t: string, c: char, base: nat)
    ensures Value(t + [c], base) == Value(t, base) * base + DigitValue(c)
  {
    assert (t + [c])[..|t|] == t;
  }

  /** One digit more. */
  lemma DigitMore(k: nat, t: string, q: nat, c: char, base: nat, lowercase: bool) returns (k': nat)
    requires 2 <= base <= 16 && c in DigitsOf(base, lowercase) && t == Zeros(k) + Raw(q, base, lowercase)
    ensures t + [c] == Zeros(k') + Raw(q * base + DigitValue(c), base, lowercase)
  {
    DigitBack(c, base, lowercase);
    var d := DigitValue(c);
    DigitCodes(0, lowercase);
    hide DigitsOf, DigitChar, DigitValue;
    if q > 0 || d > 0 {
      k' := k;
      RawStep(q, d, base, lowercase);
      hide Zeros, Raw;
      assert t + [c] == Zeros(k) + (Raw(q, base, lowercase) + [c]);
    } else {
      k' := k + 1;
      ZerosEnd(k + 1);
      assert Raw(0, base, lowercase) == "" && q * base + d == 0;
      hide Zeros, Raw;
      assert t + [c] == Zeros(k + 1) + "";
    }
  }

  lemma FirstZero(k: nat, s: string)
    requires k > 0
    ensures (Zeros(k) + s)[0] == '0'
  {
    ZerosInSet(k);
    assert Zeros(k)[0] in Zeros(k);
  }

  lemma {:induction false} ZerosEnd(k: nat)
    requires k > 0
    ensures Zeros(k) == Zeros(k - 1) + "0"
  {
  }

  /** There is only one such text. */
  lemma NumberTextUnique(s: string, n: nat, base: nat, width: int, f: Flags)
    requires 2 <= base <= 16 && n < TWO32 && 0 <= width <= INT32_MAX
    requires IsNumberText(s, n, base, width, f.zeropad, f.lowercase)
    ensures s == Number(n, base, width, f)
  {
    hide Value, DigitsOf, Number;
    var k := ZerosThenDigits(s, base, f.lowercase);
    var raw := Raw(n, base, f.lowercase);
    NumberIs(n, base, width, f);
    if k > 0 {
      FirstZero(k, raw);
      ZerosEnd(k);
    }
    hide Zeros, Raw;
    if n == 0 {
      assert s == Zeros(k - 1) + "0";
    } else {
      assert Digits(n, base, f.lowercase) == raw;
    }
  }

  // ------------------------------------------------------------- directives

  /** Does the number get its zeros? A 0 flag of its own or of any directive before. */
  predicate Pads(d: Directive, f: Flags)
    requires d.Conversion?
  {
    f.zeropad || d.zero
  }

  /** The unsigned conversions, with the flags f set by the directives before: %u, %o and the three
      hexadecimal ones print the word in their base; %p is always 8 wide, and %x turns to lower case. */
  lemma UnsignedText(d: Directive, w: nat, f: Flags, more: seq<Arg>)
    requires d.Conversion? && w < TWO32 && 0 <= d.width <= INT32_MAX && d.conv in "uoxXp"
    ensures var args := [WordArg(w)] + more;
            Fits(d, args) && Takes(d) == 1 &&
            var s := Rendering(d, FlagsAfter(f, d), args);
            && (d.conv == 'u' ==> IsNumberText(s, w, 10, d.width, Pads(d, f), f.lowercase))
            && (d.conv == 'o' ==> IsNumberText(s, w, 8, d.width, Pads(d, f), f.lowercase))
            && (d.conv == 'x' ==> IsNumberText(s, w, 16, d.width, Pads(d, f), true))
            && (d.conv == 'X' ==> IsNumberText(s, w, 16, d.width, Pads(d, f), f.lowercase))
            && (d.conv == 'p' ==> IsNumberText(s, w, 16, 8, Pads(d, f), f.lowercase))
  {
    var f' := FlagsAfter(f, d);
    var base := if d.conv == 'u' then 10 else if d.conv == 'o' then 8 else 16;
    var width := if d.conv == 'p' then 8 else d.width;
    UnsignedIs(d, w, f, more, base, width);
    hide Number, IsNumberText, Rendering, Fits, Takes;
    NumberIsText(w, base, width, f');
  }

  lemma UnsignedIs(d: Directive, w: nat, f: Flags, more: seq<Arg>, base: nat, width: int)
    requires d.Conversion? && w < TWO32 && d.conv in "uoxXp"
    requires base == if d.conv == 'u' then 10 else if d.conv == 'o' then 8 else 16
    requires width == if d.conv == 'p' then 8 else d.width
    ensures Fits(d, [WordArg(w)] + more) && Takes(d) == 1
    ensures Rendering(d, f, [WordArg(w)] + more) == Number(w, base, width, f)
    ensures Rendering(d, FlagsAfter(f, d), [WordArg(w)] + more) == Number(w, base, width, FlagsAfter(f, d))
  {
    hide Number;
    assert Wrap(ToInt32(w)) == w;
    hide ToInt32, Wrap;
  }

  /** %d and %i print a word of 2^31 or more as a minus sign and its distance from 2^32, padded without
      counting the sign. */
  lemma SignedText(d: Directive, w: nat, f: Flags, more: seq<Arg>)
    requires d.Conversion? && w < TWO32 && 0 <= d.width <= INT32_MAX && d.conv in "di"
    ensures var args := [WordArg(w)] + more;
            Fits(d, args) && Takes(d) == 1 &&
            var s := Rendering(d, FlagsAfter(f, d), args);
            if w <= INT32_MAX then IsNumberText(s, w, 10, d.width, Pads(d, f), f.lowercase)
            else s != "" && s[0] == '-' && IsNumberText(s[1..], TWO32 - w, 10, d.width, Pads(d, f), f.lowercase)
  {
    var n := if w <= INT32_MAX then w else TWO32 - w;
    SignedIs(w);
    hide Number, IsNumberText, ToInt32, Wrap;
    var f' := FlagsAfter(f, d);
    NumberIsText(n, 10, d.width, f');
    assert ("-" + Number(n, 10, d.width, f'))[1..] == Number(n, 10, d.width, f');
  }

  lemma SignedIs(w: nat)
    requires w < TWO32
    ensures w <= INT32_MAX ==> ToInt32(w) == w && Wrap(w) == w
    ensures w > INT32_MAX ==> ToInt32(w) == w - TWO32 && Wrap(ToInt32(TWO32 - w)) == TWO32 - w
  {
  }

  /** %c prints the character whose code is the low byte of its argument. */
  lemma CharacterText(d: Directive, c: char, high: nat, f: Flags, more: seq<Arg>)
    requires d.Conversion? && d.conv == 'c' && c as int < 256 && c as int + 256 * high < TWO32
    ensures var args := [WordArg(c as int + 256 * high)] + more;
            Fits(d, args) && Takes(d) == 1 && Rendering(d, f, args) == [c]
  {
    assert (c as int + 256 * high) % 256 == c as int;
  }

  /** %s prints its argument, whatever the flags and the width, and nothing for a null pointer. */
  lemma StringText(d: Directive, s: string, f: Flags, more: seq<Arg>)
    requires d.Conversion? && d.conv == 's'
    ensures Fits(d, [StrArg(Some(s))] + more) && Rendering(d, f, [StrArg(Some(s))] + more) == s
    ensures Fits(d, [StrArg(None)] + more) && Rendering(d, f, [StrArg(None)] + more) == "" && Takes(d) == 1
  {
  }

  /** Any other conversion, %% included, prints nothing and takes no argument. */
  lemma UnknownText(d: Directive, f: Flags, args: seq<Arg>)
    requires d.Conversion? && d.conv !in "csdiuoxXp"
    ensures Fits(d, args) && Takes(d) == 0 && Rendering(d, f, args) == ""
  {
  }

  // ---------------------------------------------------- in a format string

  /** A directive on its own in a format. */
  lemma SpelledAlone(d: Directive)
    requires CanWrite(Written(d, ""))
    ensures Parse(Spelling(Written(d, "")), 0) == Some([d])
  {
    var w := Written(d, "");
    hide Parse, CanWrite, Spelling;
    assert Spell([w]) == Spelling(w) + "" == Spelling(w) by { SpellTwo(w, w); }
    SpelledParses(Spelling(w), [w]);
    assert Meant([w]) == [d];
  }

  /** The names of the disks: the format hd%c prints its character after the two letters. */
  lemma DiskName(c: char)
    requires c as int < 256
    ensures Parse("hd%c", 0) == Some([Literal('h'), Literal('d'), Conversion(false, 0, 'c')])
    ensures var ds, args := Parse("hd%c", 0).value, [WordArg(c as int)];
            Matches(ds, args) && Render(ds, NO_FLAGS, args) == ['h', 'd', c]
  {
    var h, d, w := Literal('h'), Literal('d'), Conversion(false, 0, 'c');
    var ds, args := [h, d, w], [WordArg(c as int)];
    DiskFormat();
    assert ds[1..] == [d, w] && ds[1..][1..] == [w] && ds[1..][1..][1..] == [];
    CharacterText(w, c, 0, NO_FLAGS, []);
    assert args + [] == args && args[1..] == [];
    assert Render([], NO_FLAGS, []) == "" && Matches([], []);
    assert Render([w], NO_FLAGS, args) == [c];
  }

  lemma DiskFormat()
    ensures Parse("hd%c", 0) == Some([Literal('h'), Literal('d'), Conversion(false, 0, 'c')])
  {
    var s := "hd%c";
    var h, d, c := Literal('h'), Literal('d'), Conversion(false, 0, 'c');
    assert s[3..3] == "" && Value("", 10) == 0 && ToInt32(0) == 0;
    assert SkipZeros(s, 3) == 3 && SkipDigits(s, 3) == 3;
    ParseSpec(s, 2, 3, 3, 0, 'c');
    assert Parse(s, 4) == Some([]) && [c] + [] == [c];
    assert Parse(s, 1) == Prepend(d, Parse(s, 2)) && [d] + [c] == [d, c];
    assert Parse(s, 0) == Prepend(h, Parse(s, 1)) && [h] + [d, c] == [h, d, c];
  }
}
